# A verified model of a memcached port to DPDK

The repository runs memcached on top of DPDK: a UDP-style packet loop in place of the kernel's sockets, a
two-thread variant of it, a client, and a patched testpmd. This project models the parts of it that are
hardest to get right, step by step and with the state that the C code changes in place, and proves what they
are for.

| file | models |
|---|---|
| `BundleAllocator.dfy` | the per-thread allocator of response objects |
| `OutputPipeline.dfy`, `TcpOutput.dfy`, `UdpOutput.dfy` | the chain of responses and its transmission over stream and datagram sockets |
| `ChunkCopy.dfy` | chains of chunks and the copying between them for append and prepend |
| `Decimal.dfy`, `StoreSpec.dfy`, `StoreRuns.dfy`, `StoreEngine.dfy` | the storage commands and the counters: their meaning on a key map, properties of whole runs, and the reference-counted items that refine it |
| `ReadItem.dfy` | reading the value of a command into flat and chunked items |
| `DriveMachine.dfy` | the state machine of a TCP connection and the protocol for side IO |
| `Handshake.dfy` | the handshake of packet loop and worker thread, all interleavings |
| `Hairpin.dfy` | the peering of hairpin queues in testpmd |
| `Wire.dfy` | the packets of client and server |
| `MbufBurst.dfy` | packet buffers in bursts, for the server loop and the macswap engine |
| `Restart.dfy` | the metadata of a restart |
| `Bytes.dfy`, `BigEndian.dfy`, `Arith.dfy`, `Options.dfy` | sequences of bytes and slices, numbers as bytes, arithmetic, and values that may be missing |

`memcached_libdpdk.c` and `memcached-vanilla.c` agree up to line 4880; rows cite the former where both apply.

The environment is modelled by functions from call numbers to outcomes: how many bytes a socket takes or gives,
whether an allocation succeeds, which packets arrive, what a driver call returns. Theorems hold for all such
functions. A class keeps, beside the fields of the C structure, a ghost value of the whole state; its methods
are proved to make the steps that the lemmas are about. Fixed arrays inside C structures are sequence fields.
Numbers are unbounded except where the C width matters, and is written out.

The interleaving model takes the atomic builtins and the mutex as sequentially consistent.

Results that hold only under a condition are stated as equivalences, with a concrete run or input for the other
case where that says more: the numbering of datagrams after a failed attempt, the flat join of a chunked item,
reading back counters from 2^63 on, tokens in stale mode, the registration of an event after a failed one,
one-by-one configuration of hairpin ports, lost posts and torn pairs of the handshake, the size check of SET
packets, repeated keys in the restart metadata.

## Model

| member | source | states |
|---|---|---|
| `OutputPipeline.Conn.RespAddIov` | memcached_libdpdk.c:1168-1175 | the connection's pending byte stream grows by exactly the added bytes, or not at all when the response is skipped; every other response is untouched |
| `OutputPipeline.Conn.RespAddChunkedIov` | memcached_libdpdk.c:1180-1184 | the same for a chunked item, of which the first `len` bytes are owed |
| `OutputPipeline.Conn.RespStart` | memcached_libdpdk.c:1300-1330 | if a response object can be had, an empty response joins the end of the chain, addressed for UDP only; otherwise nothing changes; what the other responses owe is untouched |
| `OutputPipeline.Conn.RespSkip` | memcached_libdpdk.c:1390-1430 | a noreply response owes nothing any more |
| `OutputPipeline.EmitChunked` | memcached_libdpdk.c:2725-2766 | however much of a chunked item was sent before, the slices produced continue exactly there, and stop short of the end only when the vector is full |
| `OutputPipeline.EmitResp` | memcached_libdpdk.c:2719-2770 | the entries of one response yield a prefix of the bytes it owes, all of them unless the vector is full |
| `OutputPipeline.Conn.OfferChain` | memcached_libdpdk.c:2716-2779 | the walk of the chain offers, in order, what the first responses owe, never uses more than IOV_MAX - 1 slots, and stops early only when another response might not fit |
| `OutputPipeline.Conn.TransmitPre` | memcached_libdpdk.c:2716-2779 | what is offered to one sendmsg is a prefix of the pending stream, the whole of it unless slots run out, and not empty when the head owes something |
| `OutputPipeline.AdvancedPending` | memcached_libdpdk.c:2803-2823 | moving the entries of a response forward by the bytes that were sent leaves exactly the remaining bytes owed, for plain and chunked entries alike |
| `OutputPipeline.Conn.Advance` | memcached_libdpdk.c:2803-2823 | the loop over the entries drops exactly `res` bytes from the front of what the response owes, and changes only its entries and its count |
| `OutputPipeline.Conn.FinishSent` | memcached_libdpdk.c:2785-2801 | exactly the skipped and completely sent responses at the head of the chain are finished, in order, and the bytes left over belong to the next one |
| `OutputPipeline.Conn.TransmitPost` | memcached_libdpdk.c:2785-2833 | after a send of `res` bytes the pending stream is the old one without its first `res` bytes; responses are finished in chain order |
| `OutputPipeline.StreamAfter` | memcached_libdpdk.c:2785-2833 | dropping whole responses and then part of the next one is dropping that many bytes from the stream |
| `TcpOutput.Transmit` | memcached_libdpdk.c:2844-2897 | for any result of sendmsg, bytes sent so far followed by bytes still pending stay the same; nothing is lost, repeated or reordered; errors change nothing |
| `TcpOutput.Flush` | memcached_libdpdk.c:3493-3518 | repeated sending terminates when each send makes progress or fails, and on completion the peer has read every response's bytes in order |
| `TcpOutput.SentPlusPending` | memcached_libdpdk.c:2870-2880 | a socket that takes any prefix of an offered prefix keeps sent plus pending unchanged |
| `UdpOutput.NeededIsCeiling` | memcached_libdpdk.c:2903-2914 | the number of datagrams computed by division and remainder is the ceiling, and falls by one with each full datagram |
| `UdpOutput.BuildUdpHeader` | memcached_libdpdk.c:2899-2927 | the first header fixes the number of datagrams, capped at 65535; every header reads as request id, running number and that total, two bytes each, the high one first, and two zeros, and uses up its number |
| `UdpOutput.HeaderReads` | memcached_libdpdk.c:2918-2925 | bytes 0 and 1 of a header are the request id, 2 and 3 the number, 4 and 5 the total, each modulo 2^16, and the last two are 0 |
| `UdpOutput.Clip` | memcached_libdpdk.c:2983-2996 | clipping the vector cuts the gathered bytes at exactly the datagram size |
| `UdpOutput.ClippedDatagram` | memcached_libdpdk.c:2970-2996 | a clipped datagram is its header followed by at most UDP_DATA_SIZE bytes of data |
| `UdpOutput.SendDatagram` | memcached_libdpdk.c:2962-3035 | one datagram takes the next part of the pending stream; a failed send leaves the data pending but uses up a number |
| `UdpOutput.TransmitUdp` | memcached_libdpdk.c:2941-3036 | every call finishes a skipped head or sends one datagram, whose payload is the front of the stream; errors are told apart and lose nothing |
| `UdpOutput.FragmentsPayload` | memcached_libdpdk.c:2899-2927 | the fragments of any non-empty data are as many as computed for the header, and their payloads joined are the data |
| `UdpOutput.FragmentsShape` | memcached_libdpdk.c:2899-3018 | exactly the announced number of datagrams, whose headers read as the request id, consecutive numbers and the total; all but the last one are full, and their payloads concatenate to the response |
| `UdpOutput.ReceiverGetsResponse` | memcached_libdpdk.c:2899-3018 | a receiver that takes these datagrams in any order, reads the total in any of them, and joins the payloads by the numbers it reads, gets the response |
| `UdpOutput.SendResponse` | memcached_libdpdk.c:2941-3018 | a plain response needing at most 65535 datagrams leaves as exactly these fragments when the socket takes every datagram, however long it is; datagram k reads as number k of the total |
| `UdpOutput.NumberingSurvives` | memcached_libdpdk.c:2926-2926 | the numbers that reach the receiver are consecutive from 0 if and only if no attempt that failed was followed by one that succeeded |
| `UdpOutput.SeriesSurvives` | memcached_libdpdk.c:2926-2926 | after a series that ends with a success, the numbers received are consecutive if and only if every attempt got out |
| `UdpOutput.Attempts` | memcached_libdpdk.c:2941-3018 | attempts on a plain response, any of which may fail, until it is done or m were made: it is done exactly when as many datagrams got out as it takes, one for a short response, and their payloads are the response then; each reads as the number of its attempt, so the numbers are consecutive if and only if no attempt failed |
| `BundleAllocator.AllocStepKeeps` | memcached_libdpdk.c:1191-1250 | any allocation step keeps the whole heap invariant: acyclic doubly linked list of exactly the non-full bundles, refcounts equal to slots in use, at most one unused bundle and that one last; it never hands out a slot that is in use |
| `BundleAllocator.FreeStepKeeps` | memcached_libdpdk.c:1252-1298 | any freeing step keeps that invariant and releases exactly the one slot |
| `BundleAllocator.AllocStepMeaning` | memcached_libdpdk.c:1191-1250 | an allocation hands out the first free slot of the head bundle from its hint on, or slot 0 of a new bundle when there is none; the hint moves behind it, and a bundle that is full leaves the list |
| `BundleAllocator.FreeStepMeaning` | memcached_libdpdk.c:1252-1298 | a bundle's buffer is given back exactly when its last slot is freed and it is not all there is on the list; a bundle that was full comes to the head, and otherwise the list stays in order |
| `BundleAllocator.FullMeansNoFreeSlot` | memcached_libdpdk.c:1196-1226 | a bundle has a free slot exactly when its refcount is below the maximum, so the search cannot fail on a listed bundle |
| `BundleAllocator.ProbeReaches` | memcached_libdpdk.c:1197-1205 | the rotating search visits every slot |
| `BundleAllocator.ProbeSteps` | memcached_libdpdk.c:1197-1205 | it begins at the hint and goes on slot by slot, round the end |
| `BundleAllocator.OnListTest` | memcached_libdpdk.c:1257-1286 | the pointer tests that decide whether a bundle is on the list, or is all of it, are right |
| `BundleAllocator.DropBundleKeeps` | memcached_libdpdk.c:1262-1280 | unlinking an emptied bundle from anywhere in the list keeps the invariant |
| `BundleAllocator.PushHeadKeeps` | memcached_libdpdk.c:1281-1294 | a bundle that was full is linked at the head and the invariant is kept |
| `BundleAllocator.Thread.FindFree` | memcached_libdpdk.c:1197-1205 | finds a free slot if there is one, the first in rotation order from the hint |
| `BundleAllocator.Thread.RespAllocate` | memcached_libdpdk.c:1191-1250 | fails only when the list is empty and no buffer is available, and then changes nothing; otherwise hands out a slot that was not in use, from the head bundle if there is one |
| `BundleAllocator.Thread.RespStart` | memcached_libdpdk.c:1300-1330 | response_obj_count is the number of live responses and response_obj_bytes is READ_BUFFER_SIZE times the number of live bundles, over every run; failures are counted and change nothing else |
| `BundleAllocator.Thread.RespFree` | memcached_libdpdk.c:1252-1298 | takes exactly that response out of the live ones, gives the buffer of its bundle back exactly when nothing is left in it and other bundles are listed, with all asserts of the function discharged and the counters kept exact |
| `ChunkCopy.AllocChunk` | memcached_dpdk_pipeline/memcached/items.c:220-259 | a chunk is linked at the end of the chain, of the size asked for or of the largest size; a failure leaves the chain alone |
| `ChunkCopy.FillAndExtend` | memcached_libdpdk.c:1637-1649 | appends a piece and provides a last chunk with room whenever bytes are still to come |
| `ChunkCopy.CopyFromFlat` | memcached_libdpdk.c:1658-1679 | on success the destination holds its old content followed by the first `len` bytes of the flat source; on failure a prefix of them |
| `ChunkCopy.CopyFromChunks` | memcached_libdpdk.c:1624-1657 | the same for a source chain with its own chunk boundaries, empty chunks included; terminates |
| `ChunkCopy.CursorMoves` | memcached_libdpdk.c:1631-1655 | the pair of chunk and offset in a source chain is a position in its contents, and moves with the bytes copied |
| `ChunkCopy.StoreItemCopyChunks` | memcached_libdpdk.c:1613-1681 | the destination gains a prefix of the `len` bytes, all of them when the result is 0; the result is -1 exactly when one of its own chunk allocations failed, which after a complete copy can only be the one that asks for a chunk of 0 bytes behind a full last chunk |
| `ChunkCopy.CopyFlat` | memcached_libdpdk.c:1688-1690 | the two overlapping copies into a flat item give the first value without its CRLF, then the second |
| `ChunkCopy.StoreItemCopyData` | memcached_libdpdk.c:1683-1707 | append yields old without its CRLF then new, prepend new without its CRLF then old, of the bytes that the copy reads: the contents of both items when the new item is chunked, and what ITEM_data points at when it is flat |
| `ChunkCopy.FlatJoinHasFlatSources` | memcached_libdpdk.c:1683-1707 | with the item header of 48 bytes and the default largest chunk, some flat join reads a chunked added item if and only if the added item has client flags, the old one has none and the old value has less than four bytes before its CRLF |
| `ChunkCopy.FlatJoinReads` | memcached_libdpdk.c:1683-1707 | for all header and chunk sizes a flat join has a flat old item, and its added item can be chunked only in that case |
| `ChunkCopy.FlatIff` | memcached_dpdk_pipeline/memcached/items.c:262-285 | an item is flat exactly when header, key with terminator, 4 bytes for client flags that are not 0, value, and 8 bytes for a cas if in use, fit into the largest chunk |
| `Decimal.ReadBack` | memcached_dpdk_pipeline/memcached/util.c:49-72 | a printed number followed by white space parses back to itself, unless it is 2^63 or more and a minus sign occurs anywhere behind it |
| `Decimal.StrToULLAccepts` | memcached_dpdk_pipeline/memcached/util.c:49-72 | the number read from white space, a sign or none, digits, and white space or the end: counted down from 2^64 with a minus sign, none if it has more than 64 bits, or has all of them while there is a minus sign anywhere |
| `Decimal.StrToULLSplits` | memcached_dpdk_pipeline/memcached/util.c:49-72 | nothing else is taken for a number |
| `Decimal.DigitBehind` | memcached_dpdk_pipeline/memcached/util.c:49-72 | a digit behind a number is ten times the number, and the digit, both in printing and in reading |
| `Decimal.CStringEnds` | memcached_dpdk_pipeline/memcached/util.c:54-61 | a string ends at its first NUL: nothing behind it is looked at |
| `Decimal.ItoaFits` | memcached_dpdk_pipeline/memcached/memcached.h:74-74 | every 64-bit number has at most 20 digits, so the buffer of 24 is large enough |
| `StoreSpec.StoreStepMeaning` | memcached_libdpdk.c:1741-1866 | the answer of every command: an absent key is created by add, set and the VIV forms only; on a present one set and replace store, add does not, cas stores exactly on a matching token (or a lower one in stale mode) and otherwise answers EXISTS, joins answer EXISTS exactly on another token, and store exactly when token, storage and memory for item and chunks allow; whenever the result is not STORED the map is unchanged; other keys never change |
| `StoreSpec.StoreStepContents` | memcached_libdpdk.c:1741-1866 | what is stored: for joins flags and expiry of the old entry and the two values with one CRLF in the end, for a stale cas the old expiry and the stale mark, otherwise the entry of the request |
| `StoreSpec.JoinRightIff` | memcached_libdpdk.c:1683-1707 | the value stored by a join is the right one if and only if the added item is flat, or the joined one is chunked, or the memory behind the added item's header happens to hold its value |
| `StoreSpec.FillJoin` | memcached_libdpdk.c:1683-1707 | what the storage step takes a join to yield, and when it takes it to fail, is what the copying into real items and chunks does |
| `StoreSpec.NumberReadsBack` | memcached_libdpdk.c:2424-2429 | a stored counter is readable again exactly when it is below 2^63 or no minus sign follows it in memory before the next NUL |
| `StoreSpec.DeltaStoresNumber` | memcached_libdpdk.c:2457-2489 | whether written in place or into a new item, what is stored is digits, spaces and CRLF that stand for the returned number |
| `StoreSpec.DeltaCounts` | memcached_libdpdk.c:2393-2504 | incr and decr of a counter succeed if and only if the token fits, the number is readable and the result has room; the result is the sum, less 2^64 from there on, or the difference, or 0 if that is negative; the path taken does not matter |
| `StoreSpec.DeltaStepMeaning` | memcached_libdpdk.c:2393-2504 | every answer, exactly: not found, not a number, other token, no memory, or the number |
| `StoreSpec.DeltaStepContents` | memcached_libdpdk.c:2457-2489 | in place the digits, blanks and the last two bytes, nothing else changed but the cas; in a new item the digits and CRLF with flags and expiry of the old one |
| `StoreRuns.TokenWinsOnce` | memcached_libdpdk.c:1763-1772 | so in every run of commands without stale mode, a cas token wins at most once |
| `StoreRuns.StaleTokenWinsTwice` | memcached_libdpdk.c:1773-1789 | in stale mode a token can win twice: a concrete run |
| `StoreRuns.SpentForGood` | memcached_libdpdk.c:1715-1882 | a token that no entry carries and none will get never comes back; it wins exactly with a cas in stale mode on an entry with a higher id |
| `StoreRuns.WinsIff` | memcached_libdpdk.c:1763-1789 | a command wins with a token if and only if it is a cas with that token on an entry that carries it, or in stale mode on one with a higher id |
| `StoreRuns.SpentWinsIff` | memcached_libdpdk.c:1763-1789 | over a whole run a spent token never wins if and only if no command of the run takes it as a stale one |
| `StoreRuns.TokenWinsOnceIff` | memcached_libdpdk.c:1763-1789 | over a whole run a token wins at most once if and only if no command takes it again after the first one that does: after a match, if and only if none takes it as a stale one |
| `StoreRuns.SameCasSameEntry` | memcached_libdpdk.c:1715-1882 | no lost update: if an entry has the same cas id at both ends of a run, it was the same entry at every moment in between |
| `StoreRuns.CounterCounts` | memcached_libdpdk.c:2393-2504 | after any successful series of incr and decr, in place and by replacement in any mixture, the stored number is the total of the series |
| `StoreRuns.CounterAdds` | memcached_libdpdk.c:2431-2441 | after a series of increments the stored number is the old one plus all the numbers, modulo 2^64; after a series of decrements it is the old one less all of them, or 0 |
| `StoreEngine.LinkingOk` | memcached_dpdk_pipeline/memcached/items.c:498-518 | linking an item makes it visible under a fresh cas id and keeps all reference counts exact |
| `StoreEngine.UnlinkingOk` | memcached_dpdk_pipeline/memcached/items.c:520-533 | unlinking hides exactly that key and gives back the table's reference |
| `StoreEngine.DropOk` | memcached_dpdk_pipeline/memcached/items.c:551-559 | giving back a reference changes nothing that is visible; an item without references is gone |
| `StoreEngine.GotOk` | memcached_dpdk_pipeline/memcached/items.c:977-1057 | a lookup, lazy expiry included, changes nothing that is visible and gives one reference to the item found |
| `StoreEngine.StoredOverOk` | memcached_libdpdk.c:1744-1882 | storing over a present item, by link, replacement, join or not at all, is one step of the map, with all counts exact |
| `StoreEngine.WrittenOk` | memcached_libdpdk.c:2457-2489 | writing a new number, in place or into a new item, is one step of the map, with all counts exact |
| `StoreEngine.ExpiredOk` | memcached_dpdk_pipeline/memcached/items.c:977-1057 | looking up an expired item removes it, and changes nothing that can be seen or is held |
| `StoreEngine.OverwritingOk` | memcached_libdpdk.c:2461-2474 | overwriting a linked item in place is a store of the new value under a fresh cas id |
| `StoreEngine.Cache.DoItemGet` | memcached_dpdk_pipeline/memcached/items.c:977-1057 | returns the item of the key with one more reference, or null exactly when there is none or its expiry has come |
| `StoreEngine.Cache.DoItemReplace` | memcached_dpdk_pipeline/memcached/items.c:591-598 | the new item takes the old one's place with a fresh cas id; reference counts stay exact |
| `StoreEngine.Cache.Decide` | memcached_libdpdk.c:1744-1834 | which item is to replace the present one, if any, is what the map step says, for every command and token; a join is filled with what the copy reads |
| `StoreEngine.Cache.DoStoreItem` | memcached_libdpdk.c:1715-1882 | refines one step on the key map, including result code, returned cas and joined size, with every answer stated on the visible store; the bytes of a join are those that the copy reads, also where it reads a chunk header; on every path the caller ends with exactly the references it had |
| `StoreEngine.Cache.CountItem` | memcached_libdpdk.c:2407-2503 | reading up to the first NUL, counting, storing and releasing an item refines one step of the counter, and keeps a reference only if the caller asked for the item |
| `StoreEngine.Cache.DoAddDelta` | memcached_libdpdk.c:2393-2504 | refines one step of the counter on every path: not found, not a number, wrong token, no memory, in place, replacement, with the number stated by sum and difference; the only reference kept is the one returned; the returned cas is the stored one; an item that somebody else holds keeps its bytes |
| `ReadItem.Connection.NextBytes` | memcached_libdpdk.c:3069-3104 | the next bytes of the input come from the read buffer first, then from the socket, and none is skipped |
| `ReadItem.Connection.ReadIntoChunkedItem` | memcached_libdpdk.c:3043-3120 | the chunks gain exactly the next bytes of the input; on success the value is complete and, for the binary protocol, two more bytes have room; it terminates |
| `ReadItem.Connection.ReadIntoFlatItem` | memcached_libdpdk.c:3350-3379 | the flat item gains exactly the next bytes of the input, from buffer and socket |
| `ReadItem.Connection.NreadStep` | memcached_libdpdk.c:3336-3423 | every round conserves the input: stored, swallowed and still unread bytes together stay the same; running out of memory hands the rest of the value over to swallowing; each round that goes on makes progress; one waits only after a read that would block, and closes only after one that did not bring anything |
| `ReadItem.Connection.SwallowStep` | memcached_libdpdk.c:3425-3469 | swallowing takes exactly the bytes that are left of the value |
| `ReadItem.Connection.Round` | memcached_libdpdk.c:3336-3469 | a round waits only if its last read would block; every other round comes nearer to the end of the value; without errors none closes the connection |
| `ReadItem.ReceiveValue` | memcached_libdpdk.c:3336-3469 | for any split of the input between buffer and reads and any allocation failures, the item gets exactly the first L bytes, or a prefix with the rest of the L bytes swallowed, and parsing resumes right behind them; with enough input, no errors and no end of stream it is done after L + 2 rounds and one more for each read that would block, so after L + 2 rounds if none does, and complete unless an allocation failed |
| `DriveMachine.Conn.ResetCmdHandler` | memcached_libdpdk.c:1567-1588 | goes on parsing, flushes, or waits, in this order of preference, and is counted |
| `DriveMachine.Conn.UpdateEvent` | memcached_libdpdk.c:2655-2672 | when the wanted flags are the ones set before, nothing happens, whether the event is registered or not; otherwise it is registered anew |
| `DriveMachine.Conn.DoNewCmd` | memcached_libdpdk.c:3304-3334 | takes on a command while the budget lasts, then flushes, then yields with an event registered that is sure to come if input is left |
| `DriveMachine.Conn.SubmitQueues` | memcached_libdpdk.c:3477-3485 | exactly the queues with pending IO are submitted, and counted |
| `DriveMachine.Conn.DoMwrite` | memcached_libdpdk.c:3471-3518 | with pending side IO nothing is sent and the connection leaves the event loop; without it something is sent, and the connection goes on, waits to write, or closes, each exactly when the code does |
| `DriveMachine.Conn.Turn` | memcached_libdpdk.c:3122-3548 | every turn either stops or decreases a well-founded measure: request budget, then state, then work left in the state |
| `DriveMachine.Conn.Drive` | memcached_libdpdk.c:3122-3548 | terminates; runs reset_cmd_handler at most reqs_per_event times; dispatches on conn_closed only if entered there; and whenever it stops and waits for an event, the flags are those of that event, which is registered if and only if it was registered before or the flags have changed |
| `DriveMachine.Conn.ConnWorkerReadd` | memcached_libdpdk.c:691-719 | only the return of the last outstanding queue sets the machine in motion; what it then waits for is registered if and only if event_add succeeded or the machine came to wait for writing |
| `DriveMachine.Conn.React` | memcached_libdpdk.c:691-719 | an event that is not registered changes nothing; one that is leaves the connection registered for what it waits for; a returning queue that is not the last one is only counted |
| `DriveMachine.Conn.Hung` | memcached_libdpdk.c:700-708 | a connection that waits without being registered stays as it is, whatever happens outside: the outcome of a failed event_add, whose flags are set all the same |
| `DriveMachine.Conn.Life` | memcached_libdpdk.c:691-719 | over all orders of events and returning queues, io_queues_submitted is the number of outstanding queues and nothing is ever transmitted while one is outstanding; a connection that waits in the end is registered if and only if the last event_add of a side thread succeeded or the connection came to wait for writing after it; if every event_add succeeded, it is registered |
| `DriveMachine.RegisteredIff` | memcached_libdpdk.c:691-719 | that equivalence, for every sequence of happenings that an initially registered connection can go through |
| `Handshake.StepKeepsInv` | memcached_libdpdk.c:4892-4906 | every atomic step of either thread keeps the protocol invariant |
| `Handshake.EveryRun` | memcached_libdpdk.c:6463-6473 | the invariant holds after every interleaving |
| `Handshake.EveryRunFromStart` | memcached_libdpdk.c:4892-4906 | posts minus claims is the flag; no post is set up before the last one was claimed; pass k runs on pointers of post k or k + 1, and with the lock on a pair of a single post; the result read for post n is that of pass n or the one before |
| `Handshake.NoDeadlock` | memcached_libdpdk.c:6463-6473 | in every reachable state one of the threads can go on |
| `Handshake.OwnPostIff` | memcached_libdpdk.c:4897-4899 | a pass runs on its own post if and only if the flag is still clear when it has got the lock |
| `Handshake.OwnResultIff` | memcached_libdpdk.c:6469-6473 | the poster reads the result of its own post if and only if the worker has stored it by then |
| `Handshake.OneForOneIff` | memcached_libdpdk.c:4892-4906 | in every run, locked or not, all passes run on their own post if and only if no pointer is read after the next post has overwritten it, and all results read are the poster's own if and only if the worker had stored each when it was read |
| `Handshake.LockedReadsIff` | memcached_libdpdk.c:4892-4906 | with the lock that is decided by the flag when the first pointer is read |
| `Handshake.PatienceMatchesSingleThread` | memcached-vanilla.c:6400-6431 | if the poster only goes on when the worker is idle, every packet is processed once, in order, and every result read is its own, as in the single-threaded loop |
| `Handshake.PostCanBeLost` | memcached_libdpdk.c:4897-4899 | a run in which a post is never processed and a result is read before there is one |
| `Handshake.PairCanBeTorn` | macswap_libdpdk.c:46-60 | without the lock, a run in which a pass sees pointers of two different posts |
| `Handshake.TornIff` | macswap_libdpdk.c:46-60 | whatever the poster does between and after the two reads of an unlocked pass, the pair is torn if and only if the next post had begun at the first read but was not written at the second, or the other way round |
| `Hairpin.SymmetricIff` | testpmd-2thread.c:2339-2384 | tables of hairpin peers are symmetric if and only if the two peer functions undo each other |
| `Hairpin.OnePassMatches` | testpmd-2thread.c:2304-2337 | in one pass over any number of ports they do, in self, ring and pair mode |
| `Hairpin.OneByOneMatchesIff` | testpmd-2thread.c:2304-2337 | with each port configured in a pass of its own they do if and only if the mode is self or there is a single port |
| `Hairpin.PassPeers` | testpmd-2thread.c:2304-2337 | which ports these are, by the bits of hairpin_mode: the port before and the one after in a ring, the other of two in pairs, the port itself otherwise |
| `Hairpin.AlonePeers` | testpmd-2thread.c:2304-2337 | the same for a port that is configured alone |
| `Hairpin.RowsJoin` | testpmd-2thread.c:2339-2384 | queue i of a port names queue i of its peer, each counted from where the hairpin queues begin |
| `Hairpin.FindNextIs` | testpmd-2thread.c:2314-2318 | the next owned port is the next of the list, or none |
| `Hairpin.Ports.Peers` | testpmd-2thread.c:2304-2337 | the peers computed from the previous port, the next port and the count are those of the peer functions |
| `Hairpin.Ports.SetupHairpinQueues` | testpmd-2thread.c:2291-2386 | on success all hairpin queues of the port name the corresponding queues of its peers; queues of other ports are untouched |
| `Hairpin.Ports.StartPort` | testpmd-2thread.c:2433-2596 | a pass over ports that are all to be configured gives each the peers of the one-pass functions, whichever calls for devices and ordinary queues fail on the way to a complete pass; starting one port gives it those of the alone functions and leaves the others as they were |
| `Hairpin.StartAll` | testpmd-2thread.c:2433-2596 | starting all ports at once: every Tx hairpin queue and the Rx queue it names as its peer name each other, and the other way round |
| `Hairpin.StartOneByOne` | testpmd-2thread.c:2433-2596 | starting them one by one, that holds if and only if the mode is self or there is a single port |
| `BigEndian.Put16Get16` | memcached_dpdk_pipeline/helpers.h:65-66 | two bytes read as a number if and only if they are that number written |
| `BigEndian.Put32Get32` | memcached_dpdk_pipeline/helpers.h:68-71 | four bytes read as a number if and only if they are that number written |
| `Wire.UdpHeaderRoundTrip` | memcached_dpdk_pipeline/helpers.h:43-55 | a header is the one formed from given numbers if and only if it parses to them, announces one packet and carries the magic bytes |
| `Wire.SetLengthsRoundTrip` | memcached_dpdk_pipeline/helpers.h:58-91 | key and value length of a SET survive for all 16-bit and 32-bit lengths, wrap-around of the body length included |
| `Wire.SetRoundTrip` | memcached_dpdk_pipeline/memcached_client.h:259-311 | the server finds in a SET packet the client's key and value, in disjoint adjacent slices that end with the packet, and the request's numbers |
| `Wire.GetRoundTrip` | memcached_dpdk_pipeline/memcached_client.h:313-355 | the same for a GET packet and its key |
| `Wire.UdpHeaderImage` | memcached_dpdk_pipeline/helpers.h:43-55 | the UDP header byte by byte |
| `Wire.ReqHeaderImage` | memcached_dpdk_pipeline/helpers.h:58-91 | the request header byte by byte, numbers in network order |
| `Wire.SetImage` | memcached_dpdk_pipeline/memcached_client.h:259-311 | where the parts of a SET packet stand |
| `Wire.GetImage` | memcached_dpdk_pipeline/memcached_client.h:313-355 | where the parts of a GET packet stand |
| `Wire.RequestKind` | memcached_libdpdk.c:140-262 | a packet is taken by its magic bytes and opcode, and its key and value are found by the lengths in it |
| `Wire.FormSet` | memcached_dpdk_pipeline/memcached_client.h:259-311 | the buffer holds exactly that packet, nothing behind it changes, and it is refused when its 32-bit length is over 1500 |
| `Wire.FormGet` | memcached_dpdk_pipeline/memcached_client.h:313-355 | the same for a GET packet, whose length cannot wrap |
| `Wire.AcceptedIff` | memcached_dpdk_pipeline/memcached_client.h:297-302 | a SET is accepted if and only if it has at most 1500 bytes or its length wraps around to that |
| `MbufBurst.OursConcat` | memcached_dpdk_pipeline/dpdk.h:374-400 | filtering bursts one by one is filtering the whole arrival sequence |
| `MbufBurst.OursAreIpv4` | memcached_dpdk_pipeline/dpdk.h:386-396 | what is kept are all the IPv4 packets, each once, in order of arrival, and no other |
| `MbufBurst.DPDKObj.RecvOverDPDK` | memcached_dpdk_pipeline/dpdk.h:374-400 | the receive array holds exactly the packets of the burst whose ether type is IPv4, in arrival order, all others have been freed |
| `MbufBurst.DPDKObj.AllocateDPDKTxBuffers` | memcached_dpdk_pipeline/dpdk.h:266-278 | the transmit array holds the buffers just allocated and the cursor is at its start; a burst that is too large or finds no memory changes nothing |
| `MbufBurst.DPDKObj.GetNextDPDKRxBuffer` | memcached_dpdk_pipeline/dpdk.h:290-296 | hands out the waiting packets one by one, in order, and none twice |
| `MbufBurst.DPDKObj.SendBatch` | memcached_dpdk_pipeline/dpdk.h:323-340 | the NIC's share of the burst is accepted, the rest is freed, nothing is both |
| `MbufBurst.ServeBurst` | memcached-vanilla.c:6400-6431 | in one round every IPv4 packet is delivered with a transmit buffer of its own, and every buffer of the round meets its end |
| `MbufBurst.ExactlyOnce` | memcached_dpdk_pipeline/dpdk.h:323-340 | a balanced record means: each received packet was freed exactly once and never sent, each transmit buffer was accepted or freed, exactly once |
| `MbufBurst.Serve` | memcached-vanilla.c:6400-6431 | after any number of rounds every buffer has met exactly one end; every IPv4 packet has been delivered exactly once, in arrival order, and no other packet |
| `MbufBurst.Stream.PktBurst` | macswap_libdpdk.c:84-125 | packets received are packets sent plus packets dropped, over all bursts; the sent ones are the first of the burst, in order, the dropped ones are freed, retries are bounded |
| `Restart.ReadSigned` | memcached_dpdk_pipeline/memcached/util.c:104-119 | a printed number is read back by safe_strtoll if and only if it has 64 bits |
| `Restart.StrToLLAccepts` | memcached_dpdk_pipeline/memcached/util.c:104-119 | the number read from white space, a sign or none, digits, and white space or the end |
| `Restart.StrToLLSplits` | memcached_dpdk_pipeline/memcached/util.c:104-119 | nothing else is taken for a number |
| `Restart.ReadPointer` | memcached_dpdk_pipeline/memcached/util.c:79-102 | a printed pointer is read back if and only if it is not null |
| `Restart.HexDigitBehind` | memcached_dpdk_pipeline/memcached/util.c:79-102 | hexadecimal digits in their usual order and meaning |
| `Restart.StrToULLHexSplits` | memcached_dpdk_pipeline/memcached/util.c:79-102 | nothing but such digits, with sign, prefix and white space, is taken for a pointer |
| `Restart.OrderDoesNotMatter` | memcached_libdpdk.c:4671-4880 | the verdict on metadata is the same for every order of its lines |
| `Restart.AcceptedDistinctIff` | memcached_libdpdk.c:4874-4877 | accepted metadata repeats no key if and only if it has 17 lines with a known key and each of the keys |
| `Restart.RepeatedKeyAccepted` | memcached_libdpdk.c:4874-4877 | with repetitions, metadata with one single key is accepted |
| `Restart.SavedVerdict` | memcached_libdpdk.c:4607-4880 | what a server with some settings saved is accepted by one with others if and only if the settings are the same, the memory limit is below 2^63, the mapping is not null and the clock has moved on |
| `Restart.RoundTrip` | memcached_libdpdk.c:4607-4880 | that holds for any order of the lines, and then they restore every value, whatever was loaded before |
| `Restart.LineMeaning` | memcached_libdpdk.c:4748-4866 | when a line is acceptable, key by key, whatever text stands in it |
| `Restart.ApplyKeeps` | memcached_libdpdk.c:4748-4866 | what a line that cannot be read changes: nothing, but for the old base |
| `Restart.SettingTexts` | memcached_libdpdk.c:4621-4628 | each setting is saved under its own key |
| `Restart.StateNumbers` | memcached_libdpdk.c:4635-4656 | each part of the state is saved under its own key |
| `Restart.Server.SaveMeta` | memcached_libdpdk.c:4607-4659 | writes all 17 lines; asking for the cas id hands one out |
| `Restart.Server.LoadMeta` | memcached_libdpdk.c:4671-4880 | accepts exactly the metadata whose lines all fit and number at least 17; otherwise stops at the first line that does not fit |
| `Restart.StopAndStart` | memcached_libdpdk.c:6167-6307 | saving in one server and loading and starting in another: the cache is taken over if and only if what was saved is restorable and the settings are the same; the new one then goes on with every value of the old one, its clock advanced by the time in between, and knows the old mapping, while its own is the one that it will save |
| `Restart.ClockGoesOn` | memcached_libdpdk.c:6291-6307 | the relative clock continues across the restart by exactly the time in between, and moves backwards if and only if its 32 bits overflow |

## Left out

- Reply data of a GET: the server writes the value 24 response headers behind the header (`memcached_libdpdk.c:194`) while the client reads right behind one header (`memcached_dpdk_pipeline/memcached_client.h:211-215`), so there is no round trip to prove.
- `perform_get` and `perform_set` take references that they do not give back (`memcached_libdpdk.c:228`, `memcached_libdpdk.c:260`); the reference counting results are about the storage commands only.
- Hash table, LRU, slab classes, flush_all and statistics: lookups see a table of keys; `do_item_update` has no effect here; eviction is the loss of an entry in `StoreRuns`.
- StoreEngine.Cache.DoItemGet: the flush test of the lookup is left out; items disappear by expiry only.
- StoreEngine.Cache.DoStoreItem: its items hold their data as one value, which `StoreSpec.FillJoin` ties to chunks; whether memory suffices is an input, and so are the bytes behind the header of a chunked item, which a flat join reads; the largest chunk has room for a header, a key of 250 bytes and the length of a number.
- StoreEngine.Cache.DoAddDelta: reference counts and cas ids are unbounded numbers, their 16-bit and 64-bit wrap-around is not modelled.
- StoreEngine.Cache.CountItem: values end in two bytes of CRLF, as the storage commands make them; values that `perform_set` stores without them are not modelled.
- OutputPipeline.Conn.RespAddChunkedIov: a chunked item as the very first entry is excluded, because an index of 0 means that there is none; and a response holds one chunked item.
- OutputPipeline.Conn.TransmitPost: the C code tests again whether the head is finished after moving it forward; that test is always false and the model has no branch for it.
- UdpOutput.SendResponse: for plain responses; a datagram of a response with a chunked item can be short when slots run out.
- UdpOutput.Attempts: for plain responses; the attempts follow each other, and what the connection does in between is left to `DriveMachine`.
- ChunkCopy.AllocChunk: memory for a chunk comes from one pool; slab class bookkeeping is not modelled.
- ReadItem.Connection.ReadIntoFlatItem: an item that lies in the read buffer itself, for which the code has a branch but which no code of the repository sets up, is left out.
- ReadItem.ReceiveValue: the same.
- DriveMachine.Conn.Drive: for TCP connections; listening connections, TLS and the UDP branch of the states are left out; bytes are counted here and followed in `ReadItem` and `TcpOutput`; the event_del before side IO is taken to succeed.
- DriveMachine.Conn.ConnWorkerReadd: a side thread that changes the state of a connection while its queues are out is not modelled.
- Handshake.EveryRunFromStart: "the worker has finished before the poster continues" is false of the code, see `Handshake.PostCanBeLost`; what holds instead is stated.
- Handshake.TornIff: the third field of the macswap handshake is not distinguished from the second.
- Hairpin.Ports.StartPort: isolated flow mode, packet type settings and NUMA placement are left out; a missing pool of buffers and every driver call that fails are outcomes of the script.
- Hairpin.StartAll: binding of ports after the pass is left out.
- Wire.FormSet: the copies come before the size check, so the transmit buffer is taken to have room for key and value, as the caller has to see to.
- Wire.FormGet: the same for the key.
- MbufBurst.ServeBurst: the loop ignores a failed transmit allocation (`memcached-vanilla.c:6405`) and goes on with the buffers of an earlier burst; rounds whose allocation fails are left out.
- Restart.RoundTrip: key names are constructors, and a value is the text between the blank and the end of the line, without NUL; the line format of the file is not modelled.
- Restart.Server.Resume: for a host with a monotonic clock; a start without hash power keeps the power of the table.
- Process and device set-up, signals, option parsing, usage text, logging.
