# Verified models of four lwIP components

This project models, in Dafny, the parts of the vendored lwIP stack that carry the most
state and arithmetic, and proves what they are for:

- the Internet checksum (`src/lwip/inet_chksum.c`): three implementations of one
  function, and the checksums over packet-buffer chains and pseudo headers;
- the heap allocator (`src/lwip/mem.c`): first fit over a doubly linked list of headers,
  with splitting, shrinking in place, coalescing and a cached lowest free block;
- the pool allocator (`src/lwip/memp.c`): an intrusive free list with a cycle check;
- the DNS resolver (`src/lwip/dns.c`, with `lwip_strnicmp` of `src/lwip/def.c`): the
  query encoder, the two name walkers, and the table state machine with its retries,
  server changes, shared requests and shared source ports.

Code that updates memory in place is a class or a method over arrays with loops, proved
against functions on values; runs and invariants are lemmas about those functions.

| files | contents |
|---|---|
| `Words`, `Options`, `LinkedSlots` | fixed-width integers, optional values, linked structures over numbered slots |
| `OnesComplement`, `ChecksumSpec` | one's complement arithmetic; the checksum of RFC 1071 and its reading as a residue modulo 65535 |
| `InetChksum`, `PbufChksum` | the checksum loops |
| `HeapList`, `HeapLinks`, `HeapOps`, `HeapRuns` | the heap as a list of blocks: operations, links, what is kept, whole runs |
| `Heap` | the heap allocator over header arrays |
| `MempPool` | the pool allocator and `memp_sanity` |
| `CaseFold`, `DnsNames`, `DnsWalks` | letter case; encoding and walking names; what the walkers accept, label by label |
| `DnsTable`, `DnsSteps` | the steps of the resolver as functions on its tables |
| `DnsInvariant`, `DnsRuns` | what holds between steps, and that every step keeps it |
| `DnsLocal`, `DnsCallbacks` | what a step leaves alone; what the callbacks are called with |
| `DnsAnswers`, `DnsTimeouts`, `DnsTimers` | every lookup is answered; how long an unanswered one takes; both in calls of `dns_tmr` |
| `DnsReplies`, `DnsCache`, `DnsIds` | which packets matter and which record is taken; how long it is kept; transaction ids |
| `DnsScenarios`, `DnsPorts`, `DnsAges` | runs that exist for all table sizes; when a port is closed in use; which entry a lookup takes |
| `DnsQueries` | what a lookup keeps, joins and sends |
| `Resolver` | the resolver over its arrays, with the packet parser |

## How the pieces fit

**Checksum.** A message is read as one long little-endian number. Two numbers are `Same`
when they differ by a multiple of 65535 and are zero together; folding keeps the class,
swapping bytes multiplies it by 256, and each class has one 16-bit member. Every loop
keeps "accumulator plus what is left is in the class of the message", so the results are
equal, not only congruent. The reference is the word-by-word sum with end-around carry of
section 1 of RFC 1071 (`RfcSum`); the three algorithms all return it in host order.

**Heap.** `Linked` ties the header arrays to a list of blocks. The list functions
`AllocAt`, `FreeAt` and `TrimAt` say what a call does; each method of `Heap` is proved to
do exactly that, to keep `lfree` at the lowest free block, and to write no header slot
that lies in live data.

**Resolver.** `Inv` is the conjunction of what must hold between steps: pending requests
point to asking entries; ids and names of asking entries differ; a port is open exactly
when an entry asks through it (equal table sizes); accepted callbacks are the called ones
plus the pending ones, as multisets; and the age of an asking entry plus the ticks it has
left is within the bound. Each step keeps it, so every state of every run has it. That
every accepted callback is called in time follows for all runs, busy ones included: a
pending request whose entry has been asking for fewer ticks than were counted since some
step was accepted after that step.

## Where the code differs from its documentation

- README.md:1854 gives the DNS timeout as `DNS_MAX_RETRIES` ticks. With R retries and n
  usable servers an unanswered lookup takes exactly n(1 + R(R-1)/2) ticks
  (`DnsTimeouts.SilentLookup`), so the documented number is right if and only if one
  server is tried and R <= 2 (`DnsTimeouts.DocumentedTimeout`). The default R is 4, which
  makes 7 ticks for each server.
- The assertion at src/lwip/mem.c:777 can fail on a legal call: trimming an allocation
  that reaches the end of the heap. `MemTrim` reports exactly when; the heap stays well
  formed (`HeapAllocator.TrimAssertCanFail`).
- The assertion at src/lwip/inet_chksum.c:419 fails exactly when there is a buffer and the
  length to sum exceeds the first one by 0x7fff or more; the sum is right all the same
  (`PbufChksum.PartialAssertCanFail` is such a call).
- The check for other users of a source port (src/lwip/dns.c:996) runs over the entry
  table with the bound of the request table. For all table sizes, some run closes a port
  under a lookup that still uses it if and only if there are fewer requests than entries
  (`DnsPorts.PortsSafeIffEqualTables`). For callers that always pass a callback, some run
  does if and only if 2 <= requests < entries and finished entries are kept at all, that is
  DNS_MAX_TTL is not 0 (`DnsPorts.CallbackPortsIff`).
- The comment at src/lwip/dns.c:1457 says that without an unused entry the oldest finished
  one is used. Ages are 8-bit and age 0 is passed over, so a lookup is refused although an
  entry is finished if none is unused and every finished one was filled a multiple of 256
  started lookups ago, and only then (`DnsAges.LookupRefusedIff`). Some run gets there if
  and only if there are at least two entries and DNS_MAX_TTL is not 0
  (`DnsAges.RefusalsIff`, with the run in `DnsAges.RefusedAfterWrap`). The oldest is taken
  whenever all finished entries were filled fewer than 256 lookups ago
  (`DnsAges.TakesOldest`).
- `dns_compare_name` does not always walk the resolver's own encoding to its end. It fails
  at a label of 192 bytes or more, which reads as a compressed name. It stops before the
  first later label that is empty, and accepts there: for "a.", which is
  what `dns_gethostbyname` keeps of "a..", one byte too early
  (`DnsNames.TrailingDotStopsEarly`). `DnsNames.OwnEncodingResult` gives the result for
  every name, and `DnsNames.OwnEncodingAccepted` when it is the end of the encoding.
- Both updates of `lfree` in `plug_holes` are never taken, because `mem_free` lowers
  `lfree` before (`HeapAllocator.Heap.PlugHoles`).
- The assertions in `mem_sanity` about the alignment of links align the outcome of a
  comparison, so they cannot fail as written. The links are aligned all the same
  (`HeapAllocator.LinksAligned`).

## Model

| member | source | states |
|---|---|---|
| `OnesComplement.FoldKeeps` | src/lwip/inet_chksum.h:52-55 | Folding keeps the class modulo 65535 and zero-ness; from a sum of two words it yields a word. |
| `OnesComplement.FoldTwice` | src/lwip/inet_chksum.c:164-165 | Two folds turn any 32-bit sum into the 16-bit member of its class. |
| `OnesComplement.SwapScales` | src/lwip/inet_chksum.h:46-49 | Swapping the bytes of a word multiplies its class by 256. |
| `OnesComplement.SwapUnshifts` | src/lwip/inet_chksum.h:46-49 | A swap undoes a shift by one byte, in the class. |
| `OnesComplement.EndAroundKeeps` | src/lwip/inet_chksum.c:214-224 | A wrapping 32-bit sum with its carry added back stays in the class, and the increment does not wrap again. |
| `ChecksumSpec.HostSumIsResidue` | src/lwip/inet_chksum.c:79-114 | The RFC 1071 sum in host order is the residue modulo 65535, in 1..65535 or 0 for 0, of the message as a number. |
| `ChecksumSpec.ZeroSumMeansZeroBytes` | src/lwip/inet_chksum.c:132-173 | The sum is 0 if and only if all bytes are 0. |
| `ChecksumSpec.NumberConcat` | src/lwip/inet_chksum.c:580-589 | The class of a concatenation: the second part counts shifted by a byte when the first is odd. |
| `InetChksum.StandardChksum1` | src/lwip/inet_chksum.c:79-114 | Version 1 returns the RFC 1071 sum for up to 0x20000 bytes, without overflow of the accumulator. |
| `InetChksum.StandardChksum2` | src/lwip/inet_chksum.c:132-173 | Version 2 returns the same at every start address; every 16-bit load is aligned and the accumulator does not overflow. |
| `InetChksum.StandardChksum3` | src/lwip/inet_chksum.c:188-255 | Version 3 returns the same for every length and start address; all 16- and 32-bit loads are aligned. |
| `PbufChksum.InetChksumBuffer` | src/lwip/inet_chksum.c:560-564 | The checksum of a buffer is the complement of its RFC 1071 sum. |
| `PbufChksum.AddPbuf` | src/lwip/inet_chksum.c:579-589 | One buffer added, folded once and swapped if odd: the accumulator stays a word and stands for all bytes so far. |
| `PbufChksum.InetChksumPbuf` | src/lwip/inet_chksum.c:573-594 | The checksum of any chain, with any lengths and alignments, is that of the concatenated payload. |
| `PbufChksum.PseudoBase` | src/lwip/inet_chksum.c:261-295 | The complement of the result is in the class of addresses, fields and payload together. |
| `PbufChksum.PseudoPartialBase` | src/lwip/inet_chksum.c:401-443 | The same for the first chksum_len bytes, although the swap follows the length of the whole buffer; and exactly when the assertion in the loop holds. |
| `PbufChksum.InetChksumPseudo` | src/lwip/inet_chksum.c:312-329 | Equals the checksum of the IPv4 pseudo header followed by the payload. |
| `PbufChksum.Ip6ChksumPseudo` | src/lwip/inet_chksum.c:345-367 | Equals the checksum of the IPv6 pseudo header followed by the payload. |
| `PbufChksum.InetChksumPseudoPartial` | src/lwip/inet_chksum.c:459-476 | Equals the full checksum over the first min(chksum_len, total) bytes. |
| `PbufChksum.Ip6ChksumPseudoPartial` | src/lwip/inet_chksum.c:493-515 | The same for IPv6. |
| `PbufChksum.PartialAssertCanFail` | src/lwip/inet_chksum.c:413-420 | A call with an empty first buffer whose sum is right and whose assertion in the loop fails. |
| `PbufChksum.StoredChecksumVerifies` | src/lwip/inet_chksum.c:560-564 | Storing the checksum in a zeroed even-offset field makes recomputation return 0, for every message. |
| `PbufChksum.StoredPseudoVerifies` | src/lwip/inet_chksum.c:261-295 | The same for a payload behind any pseudo header of even length. |
| `LinkedSlots.EndsOrCycles` | src/lwip/memp.c:97-116 | Following links from a place either reaches NULL or runs into a cycle, never both, whatever slots that are not reached hold. |
| `LinkedSlots.Meeting` | src/lwip/memp.c:107-112 | The two pointers of Floyd's search meet or reach NULL after finitely many steps on every structure. |
| `MempPool.MempSanity` | src/lwip/memp.c:100-116 | Terminates on every linked structure; true if and only if it ends in NULL, false if and only if it runs into a cycle; only the links that are reached matter. |
| `MempPool.Pool.constructor` | src/lwip/memp.c:175-210 | The links spell out the carved elements, last carved first, and none is handed out. |
| `MempPool.Pool.Take` | src/lwip/memp.c:250-300 | Hands out the first free element, never one that is out; NULL if and only if all are out; keeps the partition. |
| `MempPool.Pool.Write` | src/lwip/priv/memp_priv.h:59-64 | Whatever its owner writes over the link of a handed-out element, the pool stays valid. |
| `MempPool.Pool.Put` | src/lwip/memp.c:358-394 | The sanity assertion holds if and only if the element was handed out: a legal free restores the partition, a double free is always detected. |
| `MempPool.PushTwiceCycles` | src/lwip/memp.c:385-389 | Pushing an element that is on the list closes a cycle through it. |
| `MempPool.NothingLost` | src/lwip/memp.c:259-299 | The free list is empty exactly when all elements are out, and free and out elements add up to the pool. |
| `MempPool.LegalRunKeepsPartition` | src/lwip/memp.c:243-394 | Every run of malloc and legal free keeps free and handed-out elements a partition of the pool. |
| `MempPool.EveryRunKeepsPartition` | src/lwip/memp.c:175-394 | The same from a freshly initialised pool. |
| `HeapOps.ExpandedOk` | src/lwip/mem.c:831-843 | The expanded size is aligned, at least the minimum and the request, or the request is rejected exactly when its rounded size exceeds the heap, also where the cast wraps. |
| `HeapOps.FirstFitFromLowest` | src/lwip/mem.c:854-858 | First fit from the lowest free block finds what first fit from the start finds. |
| `HeapOps.NoFitBeyond` | src/lwip/mem.c:857-858 | No block that starts at MEM_SIZE_ALIGNED - size or later can fit. |
| `HeapOps.AllocKeeps` | src/lwip/mem.c:873-914 | Allocating a fitting block keeps the heap well formed: tiled, aligned, minimum sizes, no adjacent free blocks. |
| `HeapOps.FreeKeeps` | src/lwip/mem.c:656-667 | Freeing with coalescing both ways keeps the heap well formed. |
| `HeapOps.TrimKeeps` | src/lwip/mem.c:732-797 | Shrinking keeps the heap well formed in all three cases. |
| `HeapOps.AllocLive` | src/lwip/mem.c:873-914 | An allocation adds itself to the live ones and leaves the others. |
| `HeapOps.FreeLive` | src/lwip/mem.c:656-667 | Freeing removes exactly the freed allocation. |
| `HeapOps.TrimLive` | src/lwip/mem.c:732-797 | Trimming changes the requested size of the trimmed allocation only. |
| `HeapOps.AllocTight` | src/lwip/mem.c:878-914 | An allocation gets its size and less than a header and the minimum more. |
| `HeapOps.TrimTight` | src/lwip/mem.c:740-797 | A trim leaves less than a header and the minimum over, and nothing when the next block is free. |
| `HeapOps.FreeUndoesAlloc` | src/lwip/mem.c:656-667 | Freeing a fresh allocation restores the list exactly, split or not. |
| `HeapOps.LiveInRange` | src/lwip/mem.c:940-951 | A live allocation is aligned, in range and big enough. |
| `HeapOps.LiveApart` | src/lwip/mem.c:940-951 | Of two live allocations the first ends before the header of the second. |
| `HeapLinks.LinkedMark` | src/lwip/mem.c:656-657 | Marking a header keeps the links in step with the list. |
| `HeapLinks.LinkedInsert` | src/lwip/mem.c:889-902 | Linking a header in makes the links spell out the list with the new block. |
| `HeapLinks.LinkedRemove` | src/lwip/mem.c:473-496 | Unlinking a header makes the links spell out the list without it. |
| `HeapRuns.MallocFailsIff` | src/lwip/mem.c:827-874 | NULL if and only if the size is 0, its rounding exceeds the heap, or no free block has enough data bytes. |
| `HeapRuns.MallocCall` | src/lwip/mem.c:817-963 | A successful allocation gives a pointer to aligned data that was not live, is live now and fits the request; the others stay. |
| `HeapRuns.FreeCall` | src/lwip/mem.c:604-673 | Freeing a live pointer ends that allocation and no other. |
| `HeapRuns.TrimRefusedIff` | src/lwip/mem.c:694-731 | A trim is refused if and only if the aligned size exceeds the heap or the data of the allocation. |
| `HeapRuns.TrimCall` | src/lwip/mem.c:685-807 | A refused trim changes nothing; any other records the new size, leaves the other allocations, and gives back what can be given back. |
| `HeapRuns.EveryRunWellFormed` | src/lwip/mem.c:502-963 | Every state of every run of malloc, free and trim from mem_init is well formed. |
| `HeapRuns.EveryRunLiveApart` | src/lwip/mem.c:502-963 | In every such state each live allocation is aligned, in range, at least as big as requested, and ends before the header of every later block. |
| `HeapAllocator.Heap.constructor` | src/lwip/mem.c:502-532 | The heap is one free block, with the end marker in place and lfree at the start. |
| `HeapAllocator.Heap.PlugHoles` | src/lwip/mem.c:460-497 | The free block is combined with free neighbours on both sides; lfree is right without being changed; no write lands in live data. |
| `HeapAllocator.LinkOkAt` | src/lwip/mem.c:537-551 | Every header on the list passes the link check. |
| `HeapAllocator.Heap.MemSanity` | src/lwip/mem.c:554-594 | On any list of linked headers the walk ends, and its assertions hold if and only if all headers are aligned and no two free blocks are adjacent; so always on a valid heap. |
| `HeapAllocator.LinksAligned` | src/lwip/mem.c:566-576 | On a valid heap the links of every header are aligned, which those assertions mean to say. |
| `HeapAllocator.CheckFreeAt` | src/lwip/mem.c:609-654 | A live pointer passes every check of mem_free; the start of a free block is reported as not used. |
| `HeapAllocator.Heap.MemFree` | src/lwip/mem.c:604-673 | NULL, misaligned, outside, unused and unlinked pointers change nothing; a live pointer is freed and coalesced, and reads as not used afterwards; lfree stays the lowest free block. |
| `HeapAllocator.Heap.FreeTwice` | src/lwip/mem.c:638-654 | A second free of the same pointer is reported as not used and changes nothing, also after coalescing with the block before. |
| `HeapAllocator.Heap.MemTrim` | src/lwip/mem.c:685-807 | Shrinks in place, or refuses without a change; keeps the heap valid; says exactly when the assertions of the body hold; no write lands in the kept data. |
| `HeapAllocator.TrimAssertCanFail` | src/lwip/mem.c:776-778 | A run of one malloc after which a legal trim trips the assertion of line 777. |
| `HeapAllocator.Heap.MemMalloc` | src/lwip/mem.c:817-963 | Takes the block that plain first fit over the whole list takes, or fails without a change; keeps the heap valid; no write lands in live data. |
| `HeapAllocator.Heap.AdvanceLowest` | src/lwip/mem.c:918-937 | The loop ends at the lowest free block or the end marker, as the assertion after it says. |
| `HeapAllocator.Heap.MallocThenFree` | src/lwip/mem.c:604-963 | A successful malloc freed at once passes every check and restores the list and lfree. |
| `CaseFold.Strnicmp` | src/lwip/def.c:185-212 | 0 if and only if the strings agree up to ASCII case on the first len bytes; length 0 compares them whole. |
| `CaseFold.FoldEqualIsLower` | src/lwip/def.c:193-208 | The 0x20 test of two bytes holds exactly when their lower-case forms are equal. |
| `CaseFold.SameName` | src/lwip/dns.c:1411-1413 | The duplicate test on a non-empty name holds exactly when the names are equal up to case. |
| `DnsNames.SkipName` | src/lwip/dns.c:726-758 | Terminates on every packet and offset, moves forward by at least two bytes or fails, and returns the end of the name. |
| `DnsNames.CompareName` | src/lwip/dns.c:669-717 | Terminates on every packet; returns the end of the name if it agrees label by label with the text, and fails otherwise. |
| `DnsWalks.SkipsExactly` | src/lwip/dns.c:726-758 | The skipper returns r if and only if the name is a row of labels ended by a zero, or by a compression pointer to any place, just before r. |
| `DnsWalks.ComparesExactly` | src/lwip/dns.c:669-717 | The comparison returns r if and only if the name is a row of labels without pointers, each equal up to case to its part of the text, ended by a zero just before r. |
| `DnsWalks.OtherNameRefused` | src/lwip/dns.c:688-702 | On the encoding of any plain name it returns the end if the text agrees in all labels up to case, and fails if one byte in a label differs. |
| `DnsNames.MatchBounds` | src/lwip/dns.c:669-717 | An accepted name takes at least two bytes and lies inside the packet. |
| `DnsNames.MatchIsSkipped` | src/lwip/dns.c:669-758 | Where the comparison accepts, the skipper returns the same offset. |
| `DnsNames.FillQuery` | src/lwip/dns.c:796-837 | For every host name the writes fill the allocated buffer exactly with header, encoded name, type and class. |
| `DnsNames.OwnEncodingResult` | src/lwip/dns.c:669-717 | What the comparison returns on any letter-case variant of the encoding of any name: the end of the name or of the label before the first later empty one, if labels up to there are under 192 bytes, otherwise failure. |
| `DnsNames.OwnEncodingAccepted` | src/lwip/dns.c:669-717 | It returns the offset just past the encoding if and only if labels are under 192 bytes and only the first may be empty. |
| `DnsNames.TrailingDotStopsEarly` | src/lwip/dns.c:669-717 | For the name "a." it accepts at an offset one byte before the end of the encoding. |
| `DnsNames.ProperNamesAccepted` | src/lwip/dns.c:669-758 | For labels of 1 to 63 bytes both walkers return the offset just past the terminating zero. |
| `DnsNames.EncodingIsVariant` | src/lwip/dns.c:810-828 | The encoding itself counts as a variant, anywhere in a packet. |
| `DnsQueries.JoinsExactly` | src/lwip/dns.c:1408-1434 | A lookup joins if and only if a request is free and some entry asks for its name: the first 255 bytes, up to case. |
| `DnsQueries.JoinedLookup` | src/lwip/dns.c:1422-1430 | It then only adds its callback to that entry in a free request. |
| `DnsQueries.LookupStarts` | src/lwip/dns.c:1490-1525 | A lookup that gets an entry keeps the first 255 bytes of its name; it asks at once through the chosen port with its callback waiting, and the query for its name and id goes to the first server or the group if memory allows; without a server it ends at once. |
| `DnsQueries.LookupFails` | src/lwip/dns.c:1457-1511 | Any other lookup is refused and changes nothing that anyone waits for. |
| `DnsQueries.ChosenIs` | src/lwip/dns.c:918-949 | The port is the first closed one if a socket can be made, else the next open one after the last used, else none. |
| `DnsQueries.TickSends` | src/lwip/dns.c:1089-1121 | A tick sends the query of an entry that goes on asking exactly if its timer ran down and memory allows, to the new server after a change; all other ticks send nothing. |
| `DnsSteps.PickEntry` | src/lwip/dns.c:1438-1468 | An unused entry if there is one; what else is taken is finished and no finished entry has a larger age modulo 256; never one that asks. |
| `DnsAges.NoneTakenIff` | src/lwip/dns.c:1438-1468 | No entry is taken if and only if none is unused and every finished one has age 0 modulo 256. |
| `DnsAges.TakenByNumber` | src/lwip/dns.c:1438-1468 | A finished entry is taken only with an age above 0 modulo 256, and it is the first of the largest. |
| `DnsAges.AgesAreCounts` | src/lwip/dns.c:1449-1519 | In every run the 8-bit age of an entry in use is, modulo 256, the number of lookups started since it was filled, itself included. |
| `DnsAges.LookupRefusedIff` | src/lwip/dns.c:1408-1511 | In every run a lookup is refused if and only if it joins no other and there is no free request, no port, or no entry: none unused and every finished one filled a multiple of 256 started lookups ago. |
| `DnsAges.TakesOldest` | src/lwip/dns.c:1457-1467 | In every run, without an unused entry and with all finished ones filled fewer than 256 lookups ago, the one filled first is taken. |
| `DnsAges.RefusedAfterWrap` | src/lwip/dns.c:1457-1462 | For all sizes with two entries, a run from the initial tables to a lookup that is refused although an entry is finished and a request and a port are free. |
| `DnsAges.RefusalsIff` | src/lwip/dns.c:1457-1462 | Some run gets there if and only if there are at least two entries and finished entries are kept at all. |
| `DnsInvariant.BoundClosedForm` | src/lwip/dns.c:1089-1121 | The bound on the ticks of a lookup is DNS_MAX_SERVERS * (1 + R(R-1)/2). |
| `DnsInvariant.CallsMatch` | src/lwip/dns.c:980-987 | The callbacks called for an entry are exactly the pending ones it had; the flushed table holds the rest. |
| `DnsCallbacks.CallFoundAnswers` | src/lwip/dns.c:980-987 | Exactly the callbacks of the requests that wait for the entry are called, in their order, each with its name and the given address. |
| `DnsCallbacks.TickCalls` | src/lwip/dns.c:1089-1121 | A tick calls nothing unless it ends the lookup, and then its callbacks without an address. |
| `DnsCallbacks.ReceiveCalls` | src/lwip/dns.c:1188-1382 | A packet calls nothing unless it ends the lookup, and then its callbacks, with the address it gives or without one. |
| `DnsRuns.FinishKeeps` | src/lwip/dns.c:960-1015 | Ending a lookup keeps the invariant: no callback is lost, no port in use is closed, none leaks. |
| `DnsRuns.RetryRank` | src/lwip/dns.c:1089-1121 | A check of an asking entry uses up exactly one of its remaining ticks, or the entry gives up at its last. |
| `DnsRuns.CheckKeeps` | src/lwip/dns.c:1065-1137 | Checking an entry keeps the invariant. |
| `DnsRuns.TickKeeps` | src/lwip/dns.c:1142-1150 | A timer tick for an entry keeps the invariant, including the age bound. |
| `DnsRuns.ReceiveKeeps` | src/lwip/dns.c:1188-1382 | Every packet from anyone keeps the invariant. |
| `DnsRuns.EnqueueKeeps` | src/lwip/dns.c:1393-1526 | Every enqueue keeps the invariant, whether it joins, starts, or fails for lack of entries, requests or sockets. |
| `DnsRuns.StepKeeps` | src/lwip/dns.c:355-1526 | Enqueues, ticks, packets and server changes all keep the invariant. |
| `DnsRuns.TickAllSteps` | src/lwip/dns.c:1142-1150 | One call of the timer is a part of a run: one check for each entry, from the first to the last. |
| `DnsRuns.EveryRunInv` | src/lwip/dns.c:315-1526 | Every state of every run from the initial tables satisfies the invariant. |
| `DnsRuns.AllAnswered` | src/lwip/dns.c:980-987 | When no entry asks any more, the called callbacks are the accepted ones, each as often. |
| `DnsRuns.ReplyMatchesOne` | src/lwip/dns.c:1214-1217 | A transaction id belongs to at most one asking entry, the one the search finds. |
| `DnsRuns.AskingWithinBound` | src/lwip/dns.c:1089-1121 | An entry has always asked for fewer ticks than the bound, with tmr >= 1 and retries < R. |
| `DnsLocal.StepActs` | src/lwip/dns.c:1065-1382 | A tick or a packet acts on one entry only: it does not start to ask, keeps its name and gets older by its own tick only; requests are at most flushed and nothing is accepted. |
| `DnsLocal.ReceiveActs` | src/lwip/dns.c:1188-1382 | A packet that is for no entry, or is ignored, changes nothing; any other acts on its addressee only. |
| `DnsLocal.LookupSpares` | src/lwip/dns.c:1393-1526 | A lookup leaves every asking entry as it is, and an entry it starts has fresh counters and the first server. |
| `DnsLocal.EveryQueryThroughOpenPort` | src/lwip/dns.c:767-881 | In every run each step sends at most one query: that of an entry that asks, to a set server or the group, and with equal table sizes through an open port. |
| `DnsAnswers.YoungAccepted` | src/lwip/dns.c:960-1526 | In every run, a request pending on an entry that has asked for fewer ticks than it was checked since a step was accepted after that step, counted as multisets. |
| `DnsAnswers.EveryLookupAnswered` | src/lwip/dns.c:960-1526 | In every run, whatever is enqueued and received meanwhile, once each entry has been checked as often as the bound says, every callback accepted before has been called as often as it was accepted, and none was called that was not accepted. |
| `DnsAnswers.QuietRunAnswered` | src/lwip/dns.c:960-1526 | If moreover nothing is enqueued meanwhile, the callbacks called are exactly those accepted. |
| `DnsAnswers.AskingAges` | src/lwip/dns.c:1089-1121 | While an entry goes on asking in a run, exactly its own checks make it older. |
| `DnsAnswers.EntryEnds` | src/lwip/dns.c:1089-1121 | In every run, an entry that is checked as often as the bound says stops asking in between. |
| `DnsTimeouts.RetryLeft` | src/lwip/dns.c:1089-1121 | A check of an entry that is tried with n servers uses up exactly one of the ticks it has left, and ends it exactly at the last. |
| `DnsTimeouts.SilentLookup` | src/lwip/dns.c:1042-1121 | In every run, a lookup with n usable servers (1 for mDNS) that gets no packet meant for it, and whose number of usable servers stays, asks until exactly n(1 + R(R-1)/2) checks of its timer. |
| `DnsTimeouts.DocumentedTimeout` | README.md:1854-1855 | An unanswered lookup ends with exactly the documented R-th check if and only if one server is tried and R <= 2. |
| `DnsTimeouts.DefaultTimeout` | README.md:1854-1855 | With the default R = 4 it asks for exactly 7 checks with each server. |
| `DnsTimeouts.TicksRun` | src/lwip/dns.c:1089-1121 | For all table sizes, server counts and numbers of ticks there is a run with such a lookup. |
| `DnsTimeouts.DocumentedAlwaysIff` | README.md:1854-1855 | The documented timeout holds for every unanswered lookup of every run if and only if only one server can be set and R <= 2. |
| `DnsTimers.CallContinues` | src/lwip/dns.c:394-400 | What a call of the timer does goes on with any run that leads to its tables. |
| `DnsTimers.AnsweredByCalls` | src/lwip/dns.c:394-400 | In every run, as many calls of the timer as the bound says answer all lookups accepted before them. |
| `DnsTimers.SilentForCalls` | src/lwip/dns.c:394-400 | An unanswered lookup asks for exactly n(1 + R(R-1)/2) calls of the timer. |
| `DnsReplies.ScanFindsFirst` | src/lwip/dns.c:1287-1350 | An address is found if and only if it is that of the first IPv4 address record and each record before it has its fixed part inside the packet and its next offset in range; none is found if and only if that holds for all announced records up to the end of the packet, where data may be cut short. |
| `DnsReplies.JudgedIfHeeded` | src/lwip/dns.c:1219-1350 | A packet is judged by its error code and records if it is a response with one question, for the name, type and class, from the server that was asked; otherwise it is ignored. |
| `DnsReplies.StrangerIgnored` | src/lwip/dns.c:1203-1262 | A packet that no asking entry heeds, by id, sender, flags, count or question, changes nothing. |
| `DnsReplies.ReplyJudged` | src/lwip/dns.c:1219-1350 | A response without error that repeats id and question, in any letter case, from the server that was asked, is judged by its records. |
| `DnsReplies.ErrorReplyMovesOn` | src/lwip/dns.c:1269-1285 | A reply with an error code moves the lookup to the next server, fresh counters and the query included, if one is set; for mDNS or without one it ends it and calls its callbacks without an address. |
| `DnsReplies.ReplyResolves` | src/lwip/dns.c:1188-1382 | Such a reply with any records resolves the entry to the first address record, calls exactly its waiting callbacks with its name and that address, caches it for its TTL up to the maximum, and leaves all other entries. |
| `DnsReplies.EmptyReplyEnds` | src/lwip/dns.c:1367-1373 | Such a reply without an address, also one cut short in the data of a record, ends the lookup and calls its callbacks without one. |
| `DnsReplies.OneRecordFound` | src/lwip/dns.c:1287-1320 | The reply with one address record is such a reply for every name, id, TTL and address. |
| `DnsCache.KeptForItsTtl` | src/lwip/dns.c:1122-1129 | In every run, a finished entry that no lookup takes is kept, with name and address, exactly while its timer was checked fewer times than its TTL. |
| `DnsQueries.QueryFields` | src/lwip/dns.c:801-837 | The fields of a query: the id, recursion desired, one question, the encoded name, type A, class IN, and zero otherwise. |
| `DnsQueries.ReplyToQuery` | src/lwip/dns.c:801-837 | A response without error that repeats id, count and question of a query is a proper reply to it. |
| `DnsScenarios.FinishedRun` | src/lwip/dns.c:1188-1320 | For all table sizes there is a run to any number of finished entries, each looked up and answered through the first port. |
| `DnsScenarios.Asks` | src/lwip/dns.c:918-949 | Such a run goes on to any number of lookups that all ask through the first port, while requests last for their callbacks. |
| `DnsPorts.PortClosedInUse` | src/lwip/dns.c:994-1013 | A run from the initial tables to an entry asking through a closed port: without callbacks for all sizes with fewer requests than entries, with callbacks from two requests on. |
| `DnsPorts.PortsSafeIffEqualTables` | src/lwip/dns.c:994-1013 | Some run closes a port in use if and only if there are fewer requests than entries. |
| `DnsPorts.CallbackPortsIff` | src/lwip/dns.c:994-1013 | With callbacks only, some run closes a port in use if and only if 2 <= requests < entries and finished entries are kept at all. |
| `DnsIds.CreateTxid` | src/lwip/dns.c:1018-1037 | With ids from a counter, a free id is found within DNS_TABLE_SIZE + 1 tries, round the 16-bit wrap. |
| `DnsIds.DrawTxid` | src/lwip/dns.c:1018-1037 | With ids from any generator, the loop ends with the first draw that no asking entry uses, if there is one. |
| `DnsIds.SomeFreshId` | src/lwip/dns.c:1018-1037 | There is always an id that no asking entry uses. |
| `DnsResolver.Resolver.constructor` | src/lwip/dns.c:294-301 | The zeroed tables satisfy the invariant. |
| `DnsResolver.Resolver.SetServer` | src/lwip/dns.c:360-370 | Sets a server in range, ignores others, keeps the invariant. |
| `DnsResolver.Resolver.CallFound` | src/lwip/dns.c:960-1015 | Calls and flushes the requests of the entry in order, and closes its port unless another asking entry is seen to use it. |
| `DnsResolver.Resolver.Send` | src/lwip/dns.c:767-881 | Ends the lookup if its server is gone; otherwise, if memory allows, the query for its name and id is sent through its port. |
| `DnsResolver.Resolver.CheckEntry` | src/lwip/dns.c:1065-1137 | The tables change as the step says in all four states; a new entry gets an unused id. |
| `DnsResolver.Resolver.TimerEntry` | src/lwip/dns.c:1065-1137 | A tick for one entry is the step and keeps the invariant. |
| `DnsResolver.Resolver.Timer` | src/lwip/dns.c:1142-1150 | The timer is a row of steps of the resolver, one check for each entry in order from the first, and keeps the invariant. |
| `DnsResolver.Resolver.CorrectResponse` | src/lwip/dns.c:1155-1183 | Stores address and limited TTL, calls the callbacks, and does not cache a TTL of 0. |
| `DnsResolver.ScanAnswers` | src/lwip/dns.c:1287-1350 | Finds the first IPv4 address record among the answers, or that there is none, or that the packet is malformed. |
| `DnsResolver.JudgePacket` | src/lwip/dns.c:1219-1350 | What the packet means for the entry, after all checks on flags, sender, question and answers. |
| `DnsResolver.Resolver.Receive` | src/lwip/dns.c:1188-1382 | A packet acts on the tables as the step says, and keeps the invariant. |
| `DnsResolver.Resolver.AllocPort` | src/lwip/dns.c:918-949 | Opens the first closed port if a socket can be made, otherwise reuses the next open one round the table, otherwise fails without a change. |
| `DnsResolver.IsSameHost` | src/lwip/dns.c:1412-1413 | For a non-empty host name: true if and only if the name is its first 255 bytes, up to case. |
| `DnsResolver.Resolver.Join` | src/lwip/dns.c:1408-1434 | Joins the first lookup for the same name exactly when there is one and a request is free. |
| `DnsResolver.Resolver.Pick` | src/lwip/dns.c:1438-1468 | The loop finds the first unused entry, or else the first finished one of the largest 8-bit age above 0, or none. |
| `DnsResolver.Resolver.Enqueue` | src/lwip/dns.c:1393-1526 | The whole call acts on the tables as the step says, returns its error, and keeps the invariant. |
| `DnsResolver.Resolver.Lookup` | src/lwip/dns.c:617-651 | The address of the first finished entry named as the first 255 bytes of the host, up to case; none exactly when there is no such entry. |

## Left out

- Builds of `mem.c` with libc malloc, pools, overflow guards, freeing from interrupts; its mutex, statistics and `mem_calloc`.
- The bytes of the heap: header fields live in slots indexed by offset, so a header read at an arbitrary place inside live data reads a slot and not user bytes; `used` is a boolean; offset sums inside one comparison do not wrap.
- HeapAllocator.Heap.MemFree: requires that a pointer which passes all checks is live, as the source asks of its callers (src/lwip/mem.c:600); a caller that forges a header inside its own data is excluded.
- HeapAllocator.Heap.MemTrim: requires a pointer inside the heap to be a live allocation, as the source asks of its callers (src/lwip/mem.c:678).
- Builds of `memp.c` on the heap or with overflow checks; element addresses are numbers and statistics are absent.
- MempPool.Pool.Put: the element must be one of the pool; foreign pointers are not modelled.
- `lwip_chksum_copy`, and the dispatch functions `ip_chksum_pseudo` and `ip_chksum_pseudo_partial`, which only choose the IP version; big-endian hosts.
- CaseFold.Strnicmp: the length does not wrap; the source's wrap at length 0 reads as no limit.
- The converse of `dns_compare_name`: it does not test that the host name is used up or that the skipped character is a dot, so acceptance does not imply equal names.
- DnsNames.OwnEncodingAccepted: a name that would end at offset 0xFFFF is excluded, since that offset also means failure.
- Callbacks that call the resolver again; callbacks are recorded and do not re-enter.
- The fallback between IPv4 and IPv6 for one lookup, AAAA queries, and local host lists.
- `dns_gethostbyname`: address literals, `localhost`, and the choice of mDNS by name.
- DnsIds.DrawTxid: that a random generator yields an unused id at all is assumed, as a draw that is one; in the resolver, creating an id yields any unused one.
- Creating and binding UDP sockets: whether a socket can be made, and whether a query buffer can be allocated, are parameters; queries are recorded, not sent.
- Limits of the resolver tables: sizes from 1 to 255 and no more requests than entries, since `dns_call_found` indexes entries by request numbers.
- `altcp*.c`, `netif.c`, `raw.c`, the C++ classes of the library and the examples: dispatch, flags, callbacks and device access.
