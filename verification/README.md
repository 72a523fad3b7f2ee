# A verified model of the libevent core and the worker runtime

This project models five parts of the repository and proves what they promise. All numbers are
unbounded in the proofs except where the code's width matters: there the width is written out.
`dafny verify dfyconfig.toml` checks everything.

- **The evbuffer** (`Bytes.dfy`, `Chains.dfy`, `Layout.dfy`, `Scanning.dfy`, `EvBuffer.dfy`, `Eol.dfy`,
  `EvBufferRuns.dfy`, `EvBufferGaps.dfy`). A byte stream in a linked list of chains, with the cached
  pointer to the pointer that leads to the last chain with data. `Link` stands for such a pointer: the
  `first` field of a buffer or the `next` field of a chain. `EvBuffer.Valid()` is the list invariant,
  empty chains before data included, and `Contents()` the byte string. A `Layout` is the list as a value:
  the chains, their bytes, and the index where the cache stops. Every operation relinks chains in place
  and is proved to act on the byte string as its specification says. The main results are the runs over
  two buffers (`EvBufferRuns.Run`), the exact condition under which evbuffer_remove_buffer returns with
  both buffers in order, reserve, fill and commit as one operation (`Receive`), pullup, leftmost search,
  and the line splitting that can be joined again. A parameter `memory` says of each operation that
  allocates whether it can.
- **Rate limiting** (`TokenBucket.dfy`, `RateLimit.dfy`, `GroupLimit.dfy`). The refill arithmetic with
  64-bit sizes and 32-bit ticks, the suspend and refill logic of a single bufferevent, and the group
  protocol as a state machine over the steps of any number of threads, bufferevents and groups.
- **The DNS resolver** (`Resolver.dfy`, `ResolverRuns.dfy`, `RequestList.dfy`, `DnsNames.dfy`,
  `DnsEncoding.dfy`). The inflight and waiting queues with their counters, runs that lose no request and
  leave none unsent, the pointer surgery of the circular lists, and the name codec with compression (RFC 1035, sections 3.1 and
  4.1.4).
- **The worker runtime** (`Kfifo.dfy`, `KfifoThreads.dfy`, `MinHeap.dfy`, `Timers.dfy`). The ring
  buffer and its two threads, the intrusive heap, and the timer pass.
- **The tagged format** (`TagFormat.dfy`, `EventTagging.dfy`). Its encodings, and marshalling into an
  evbuffer and back.

## What turned out not to hold

Each has an input and the exact condition.

- evbuffer_remove_buffer returns with both buffers in order if and only if the chains of the source are
  `Movable` (or it has nothing to do): those moved as a whole leave no empty chain between data, and no
  empty chain is skipped in front of the only data. `RemoveBuffer` states it for the whole call;
  `SpoiledByRemoveBuffer` builds such a source with the public operations and runs into it. After a
  pullup of as many bytes the condition always holds (`PulledMovable`).
- evbuffer_commit_space refuses an area that evbuffer_reserve_space has handed out alone, exactly in the
  state described by `Stuck`: the last chain with data has some space, the area is the next, empty chain,
  and there is another one behind it (`ReserveOne`, `Receive`; `StuckReservation` runs into it). With two
  areas or more and memory the pair never fails.
- A single area of the very last chain is committed even if it lies behind an empty chain; then the cache
  does not reach it (`CommitLast` and `CommitSpace` for the exact condition, `CommittedBehind` for a run).
- evbuffer_strspn leaves a position that no other operation yields when it runs to the end of a last chain
  with data (`StrSpn`, `SpannedToTheEnd`). evbuffer_search_eol uses only its count.
- A prepend that fails because no chain can be allocated has already stored the part that fitted into the
  first chain. The same call succeeds or fails as a whole in every other case (`Prepend`,
  `PrependedInPart`).
- evbuffer_remove_buffer does not look whether the bytes behind the whole chains could be added: when there
  is neither room nor memory they are in neither buffer, and are counted in the result (`RemoveBuffer`,
  `Kept`, `LostByRemoveBuffer`).
- The refill equals min(maximum, limit + ticks * rate) only while the limit is not above the maximum, or
  the ticks are many enough (`RefillExact`). A refund can put it above; then a refill adds instead of
  clipping (`RefillAboveMaximum`), and a limit close to the largest number wraps around and leaves an
  exhausted direction that nobody suspended (`WrapExample`, and `UpdateBuckets` for the exact condition).
- A rate-limiting group with a smallest share above zero can be exhausted and yet neither suspended nor
  waiting for a pass (`ExhaustedButRunning`). `ExhaustedSuspended` has the steps that must be avoided:
  a refill that leaves a running group exhausted, and setting the share of one.
- A tick length below a millisecond is accepted as a configuration and has length zero, by which the tick
  computation divides (`CfgNew`, `TickAt`, `NoTickLength`).
- The allowance of a bufferevent with a limit of its own ignores the cap on single reads and writes that
  libevent/include/event2/bufferevent.h:888-906 documents: libevent/bufferevent_ratelim.c:231 overwrites
  it. The model follows the code: the cap holds if and only if the limit is within it (`GetMax`,
  `CapIgnored`).
- The terminating zero of a DNS name is stored without looking at the buffer's length, so that it goes
  behind the buffer if and only if the labels are written in full and end exactly there
  (`DnsnameToLabels`, `Overruns`, `OverrunBehindBuffer`). The stored byte itself is not modelled: the
  writer says that it overran.
- A name with an empty label in the middle is written as if it ended there: what stands behind the empty
  label is still stored, so that the parser stops too early (`DnsnameToLabels`, `Undivided`), and the text
  does not come back (`ReadBack`, `EmptyLabel`). A single dot is the exception: its text comes back, with a zero too many.
- commitRead of the ring buffer does not look whether there are so many bytes (`CommitRead` for the exact
  condition, `ReadTooMuch` for an input).
- A tagged record whose announced length is 2^31 or more counts as negative: evtag_consume and
  evtag_unmarshal_timeval then drain all that follows, and evtag_unmarshal refuses it after its header
  (`Consume`, `AllDrained`, `Unmarshal`, `OneThrough`).

## Model

| member | source | states |
|---|---|---|
| Chains.NewChain | libevent/buffer.c:155-196 | A new chain is empty and holds at least what was asked for; it is refused exactly without memory and for sizes beyond the largest chain |
| Chains.Chain.Append | libevent/buffer.c:1910-1912 | Bytes copied behind the data of a chain extend its data by exactly these bytes |
| Chains.Chain.Prepend | libevent/buffer.c:2013-2016 | Bytes copied in front of the data use the misaligned space and come first |
| Chains.Chain.Align | libevent/buffer.c:2061-2068 | Realigning moves the data to the start of the allocation and leaves it as it is |
| EvBuffers.EvBuffer.FindVictim | libevent/buffer.c:302-310 | The walk from the cached link stops at the first link behind the last chain with data |
| EvBuffers.EvBuffer.FreeTrailingEmpty | libevent/buffer.c:302-316 | Trailing empty chains are cut off; the contents and the cache stay right |
| EvBuffers.EvBuffer.InsertChain | libevent/buffer.c:321-343 | A chain put in behind the data keeps the list invariant whether it is empty or not |
| EvBuffers.EvBuffer.Add | libevent/buffer.c:1861-1969 | Adding appends exactly the bytes; it is refused, and then changes nothing, exactly when frozen, when the counter would overflow, or when the last chain has no room for them and no other can be allocated; the list invariant (cache, last, length) holds after every branch |
| EvBuffers.EvBuffer.AddAtCache | libevent/buffer.c:1861-1969 | On a buffer whose cache stopped too early, adding leaves it spoiled; on one in order it appends |
| EvBuffers.EvBuffer.Prepend | libevent/buffer.c:1971-2058 | Prepending puts the bytes in front; it is refused exactly when frozen, when the counter would overflow, or when the first chain has no room for them and no other can be allocated, and in this last case the suffix that fitted is stored already |
| EvBufferGaps.PrependedInPart | libevent/buffer.c:1971-2058 | A prepend of 3000 bytes that fails for want of memory and leaves some of them in the buffer |
| EvBuffers.EvBuffer.ZeroChain | libevent/buffer.c:844-852 | The emptied list is a valid empty buffer |
| EvBuffers.EvBuffer.DrainWalk | libevent/buffer.c:1203-1231 | Whole chains are dropped up to the one that stays; the cache moves to the first link when its chain goes, and the walk never passes the last chain with data |
| EvBuffers.EvBuffer.Drain | libevent/buffer.c:1170-1245 | Draining drops exactly the first bytes, or everything, or nothing when frozen |
| EvBuffers.EvBuffer.CopyoutFrom | libevent/buffer.c:1269-1341 | The bytes copied out from a position are those of the contents there, and nothing changes |
| EvBuffers.EvBuffer.Remove | libevent/buffer.c:1248-1261 | What is handed out and what stays are together the old contents, also when freezing makes it fail |
| EvBuffers.EvBuffer.CopyChain | libevent/buffer.c:924-936 | Taking over a list carries over its cache, whether that names the first field or a chain |
| EvBuffers.EvBuffer.AppendChain | libevent/buffer.c:938-955 | The list of the other buffer goes behind the data of this one and the cache names the link that now leads to the last data |
| EvBuffers.EvBuffer.AddBuffer | libevent/buffer.c:1021-1070 | Concatenates the other buffer's contents at the end and empties it; both buffers stay valid and share no chain |
| EvBuffers.EvBuffer.PrependAll | libevent/buffer.c:1000-1019 | The list of the other buffer goes in front, and the cache is right also when this one's was its first field |
| EvBuffers.EvBuffer.PrependBuffer | libevent/buffer.c:1119-1168 | Concatenates the other buffer's contents at the front and empties it |
| Layouts.AdvanceExact | libevent/buffer.c:744-759 | Advancing the cache finds the last chain with data exactly when no empty chain lies before data behind the cached one |
| EvBuffers.EvBuffer.AdvanceLastWithData | libevent/buffer.c:744-759 | The loop stops where the specification of advancing says |
| EvBuffers.EvBuffer.SkipWhole | libevent/buffer.c:1382-1395 | Counts the chains that are moved as a whole; the assertion about the last chain with data never fires |
| EvBuffers.EvBuffer.TakeOver | libevent/buffer.c:1397-1418 | The moved chains are appended, and the result is valid if and only if they leave no gap of empty chains before data |
| EvBuffers.EvBuffer.TakeAny | libevent/buffer.c:1397-1418 | After the whole chains went, the other buffer is in order if and only if they leave no gap, and the cache of the source is wrong if and only if only empty chains were skipped and it was at the chain that stays |
| EvBuffers.EvBuffer.MoveRest | libevent/buffer.c:1420-1432 | What is left behind the whole chains is drained from the source in any case, and is in the other buffer if and only if that had room for it or a chain could be allocated |
| EvBuffers.EvBuffer.RemoveBuffer | libevent/buffer.c:1346-1443 | Returns with both buffers in order if and only if the chains were movable or nothing was to be done; then exactly the first min(len, length) bytes went to the end of the other one, except that those behind the whole chains are lost if and only if there was neither room nor memory for them. Otherwise a cache does not lead to the last data, or a byte count is wrong |
| Layouts.GapsNotMovable | libevent/buffer.c:1382-1418 | Two layouts for which the condition fails: an empty chain between data, and an empty chain before the only data |
| EvBufferGaps.SpoiledByRemoveBuffer | libevent/buffer.c:1346-1443 | A source with an empty chain between data is built by adding, reserving, add_buffer and prepend_buffer, and evbuffer_remove_buffer of two bytes leaves a buffer with data behind its cache or a wrong byte count |
| EvBufferGaps.LostByRemoveBuffer | libevent/buffer.c:1420-1432 | A byte that is moved to an empty buffer without memory is in neither buffer, and the call returns 1 |
| EvBuffers.EvBuffer.PullWhole | libevent/buffer.c:1524-1539 | The chains copied as a whole end up contiguous in the target, and the flags tell whether the cached chain, or the chain whose link is cached, went |
| EvBuffers.EvBuffer.CacheFixed | libevent/buffer.c:1554-1564 | The link chosen by the two flags is the one to the last chain with data of the pulled-up list, the first field included |
| EvBuffers.EvBuffer.FinishPull | libevent/buffer.c:1541-1571 | After the copy the list is valid and the contents are unchanged |
| EvBuffers.EvBuffer.Pullup | libevent/buffer.c:1445-1571 | The contents do not change, the first bytes lie in the first chain, and the result is null exactly for zero, too many bytes, or more than the first chain could hold when no other can be allocated |
| EvBuffers.EvBuffer.ExpandSinglechain | libevent/buffer.c:2086-2204 | Afterwards one chain, the last with data or the next one, has the space, and the contents are unchanged; commit will look at that chain if and only if the state was not that of `Stuck` |
| EvBuffers.EvBuffer.Resize | libevent/buffer.c:2164-2189 | A larger chain with the same data takes the place of the last one with data; it is refused exactly without memory and beyond the largest chain |
| EvBuffers.EvBuffer.CountSpace | libevent/buffer.c:2230-2261 | Counts the free space behind the data in up to n chains |
| EvBuffers.EvBuffer.ExpandFast | libevent/buffer.c:2208-2337 | Afterwards the contents are unchanged and at most n chains behind the data offer at least the space wanted, also when empty chains are freed and replaced |
| EvBuffers.EvBuffer.SetupVecs | libevent/buffer.c:2403-2439 | The areas are the free spaces of successive chains, in order and disjoint |
| EvBuffers.EvBuffer.ReserveSpace | libevent/buffer.c:708-742 | Reserving does not change the contents and yields at most n areas of successive chains, of together at least the size; refused when frozen, without areas, or for negative sizes of several areas |
| EvBuffers.EvBuffer.CommitOne | libevent/buffer.c:816-829 | One area's bytes join the data of its chain, and the cache moves on exactly if there are any |
| EvBuffers.EvBuffer.CommitLast | libevent/buffer.c:779-791 | Committing an area of the very last chain appends its bytes; the list stays in order if and only if there were none or no empty chain is skipped |
| EvBuffers.EvBuffer.CommitSpace | libevent/buffer.c:761-836 | Committing any prefixes of the areas appends exactly the bytes written there, in order; areas that do not match change nothing; the list invariant is lost if and only if a single area at the very end skips an empty chain |
| EvBuffers.EvBuffer.FillAndCommit | libevent/buffer.c:761-836 | Areas that were reserved, filled and shortened are committed in full, except a single one that commit does not look at |
| EvBuffers.EvBuffer.Receive | libevent/buffer.c:708-836 | Reserving, writing any bytes into each area and committing what was written appends these bytes in order; while there is memory it never fails with two areas or more, and with one area if and only if the state was that of `Stuck` |
| EvBufferGaps.StuckReservation | libevent/buffer.c:708-836 | Reserving 100 bytes as one area succeeds and committing that area fails, in a buffer made by adding and reserving |
| EvBufferGaps.CommittedBehind | libevent/buffer.c:779-791 | Of three reserved areas the last one is committed alone, and the cache does not lead to its byte |
| EvBuffers.EvBuffer.PtrSet | libevent/buffer.c:2829-2887 | A position is set or moved to where the contents say, or refused beyond the end |
| EvBuffers.EvBuffer.PtrMemcmp | libevent/buffer.c:2893-2928 | The comparison across chains yields the sign of the first difference from the contents, and -1 where they end too early |
| EvBuffers.EvBuffer.SearchRange | libevent/buffer.c:2936-3007 | Finds the leftmost occurrence between start and end in the contents, or reports that there is none |
| EvBuffers.EvBuffer.Scan | libevent/buffer.c:1583-1660 | The search for a byte, chain by chain, finds the first one in the contents |
| Scanning.FindEolChar | libevent/buffer.c:1607-1636 | The scan in pieces of 128 bytes finds the same byte as a plain scan |
| EvBuffers.EvBuffer.StrSpn | libevent/buffer.c:1662-1703 | Counts how many bytes from a position on are in a set and moves the position by as many; the new position is one of the buffer if and only if it started at the end, is not the end, or the last chain is empty |
| EvBufferGaps.SpannedToTheEnd | libevent/buffer.c:1662-1703 | In a buffer of one byte the position after the span is not one of the buffer |
| EvBuffers.EvBuffer.PtrSubtract | libevent/buffer.c:2806-2827 | Stepping back finds the chain again |
| EvBuffers.EvBuffer.SearchEol | libevent/buffer.c:1718-1814 | Yields the position and length of the line terminator that the style defines, or none |
| EvBuffers.EvBuffer.Readln | libevent/buffer.c:1816-1855 | Cuts the contents into line, terminator and rest, or leaves them alone when there is no terminator |
| EvBuffers.EvBuffer.ReadLines | libevent/buffer.c:1816-1855 | All lines with their terminators and the remainder, joined again, are the original contents; the remainder has no terminator |
| Eol.FindMeaning | libevent/buffer.c:1730-1803 | The terminator found is one of the style, no terminator of the style begins before it, and it cannot be extended |
| EvBufferRuns.Store | libevent/buffer.c:708-836 | Receiving bytes, cut up for the areas reserved, appends all of them or nothing, and with memory all |
| EvBufferRuns.PulledMovable | libevent/buffer.c:1382-1418 | Whatever empty chains there are, bytes that were pulled up first can be moved with both buffers in order |
| EvBufferRuns.Perform | libevent/buffer.c:1021-1571 | Every single call acts on the two byte strings as the specification of that call, and changes nothing where an end is frozen |
| EvBufferRuns.Run | libevent/evbuffer-internal.h:89-105 | Every run of add, prepend, receive, pullup, drain, remove, add_buffer, prepend_buffer, pullup followed by remove_buffer, freeze and unfreeze on two buffers, with and without memory, does to their contents what append, prepend, drop and concatenate do to two byte strings, a frozen end refusing what would change it, and keeps both lists valid; how much each call puts in is all of it, or nothing, or for a prepend and a move a part, and all while there is memory |
| EvBufferRuns.PipeConserves | libevent/buffer.c:1021-1443 | In a pipe through two buffers no byte that was accepted is duplicated or reordered, and none is lost if and only if no move loses any |
| EvBufferRuns.NothingLost | libevent/buffer.c:1346-1443 | While there is memory no move loses any |
| GroupLimit.LightBev | libevent/bufferevent_ratelim.c:233-260 | Locking, asking for the allowance and the late steps of joining and leaving keep every member covered |
| GroupLimit.SuspendInv | libevent/bufferevent_ratelim.c:374-389 | The beginning of a pass that suspends keeps the invariant |
| GroupLimit.ResumeInv | libevent/bufferevent_ratelim.c:521-542 | The beginning of a pass that resumes keeps the invariant, from any random member on |
| GroupLimit.GroupStepInv | libevent/bufferevent_ratelim.c:309-325 | Debits through a member, manual decrements, refills, a new configuration and a new smallest share keep the invariant, whatever the new limit is |
| GroupLimit.LoopBev | libevent/bufferevent_ratelim.c:374-398 | Every step of the suspending and the resuming loops keeps every member covered, whichever locks can be taken |
| GroupLimit.MemberBev | libevent/bufferevent_ratelim.c:790-870 | Entering and leaving the member list keeps every member covered |
| GroupLimit.StepInv | libevent/bufferevent_ratelim.c:374-870 | Every step of every thread keeps the invariant of the group protocol |
| GroupLimit.NobodyStranded | libevent/bufferevent_ratelim.c:500-540 | Under every interleaving, a member with the group's suspension bit belongs to a group that is suspended or has a pending pass, or a pass under way will still reach it or ask for another |
| GroupLimit.RefillResumes | libevent/bufferevent_ratelim.c:567-598 | Such a member is looked at by the next refill that reaches the smallest share, and that pass visits every member exactly once |
| GroupLimit.CleanPass | libevent/bufferevent_ratelim.c:520-540 | A pass that met no locked member leaves no member suspended nor about to be |
| GroupLimit.NobodyBlocked | libevent/bufferevent_ratelim.c:374-398 | Whoever is in the middle of a pass, of joining or of leaving can go on: locks of members are only tried |
| GroupLimit.PassEnds | libevent/bufferevent_ratelim.c:374-540 | A pass ends, whoever holds the locks of the members: it does to each member whose lock it can take what it is for, gives the lock of the group back, and asks for another pass exactly if it resumes and could not take one |
| GroupLimit.SweepResumes | libevent/bufferevent_ratelim.c:520-540 | A pass that nobody gets in the way of resumes the whole group |
| GroupLimit.SweepSuspends | libevent/bufferevent_ratelim.c:374-398 | A suspending pass that nobody gets in the way of leaves every member with the bit and clears none |
| GroupLimit.PassBegins | libevent/bufferevent_ratelim.c:309-325 | What becomes of the limit, and exactly when a suspending or resuming pass over which members begins, by debits, manual decrements and refills |
| GroupLimit.AllSuspended | libevent/bufferevent_ratelim.c:309-325 | When a debit or a decrement exhausts the group and nobody gets in the way, every member is suspended |
| GroupLimit.Configured | libevent/bufferevent_ratelim.c:727-757 | A new configuration clips the limit and, like a new smallest share, begins no pass |
| GroupLimit.JoinSuspends | libevent/bufferevent_ratelim.c:819-833 | Who joins a suspended group has the bit when it is in, whatever the others do meanwhile |
| GroupLimit.LeavingResumes | libevent/bufferevent_ratelim.c:847-869 | Who leaves and asks for it does not have the bit when it is out, whatever the others do meanwhile |
| GroupLimit.AskingSuspends | libevent/bufferevent_ratelim.c:233-251 | Who asks for its share in a suspended group gets the bit; nobody else does |
| GroupLimit.StepChecked | libevent/bufferevent_ratelim.c:309-325 | A step keeps every exhausted group with a smallest share above zero suspended if and only if it is not a refill that leaves a running group exhausted, nor sets the share of one |
| GroupLimit.ExhaustedSuspended | libevent/bufferevent_ratelim.c:309-325 | In a run every exhausted group with a smallest share above zero is suspended at all times if and only if no step is such a refill or setting |
| GroupLimit.ExhaustedButRunning | libevent/bufferevent_ratelim.c:567-598 | A run, of a decrement below zero, a refill up to zero with share zero and then a larger share, that ends with an exhausted group that is neither suspended nor pending |
| GroupLimit.RateLimitGroup.SuspendReading | libevent/bufferevent_ratelim.c:374-398 | Exactly the members whose lock can be taken, and those already suspended, are suspended |
| GroupLimit.RateLimitGroup.UnsuspendReading | libevent/bufferevent_ratelim.c:478-540 | From any random member on, the two loops visit every member exactly once; the pending flag tells exactly whether one was locked |
| TokenBucket.CfgNew | libevent/bufferevent_ratelim.c:145-177 | A configuration is refused exactly for zero rates, rates above the burst, or sizes beyond the signed range; a tick below a millisecond is accepted and has length zero |
| TokenBucket.NoTickLength | libevent/bufferevent_ratelim.c:145-177 | A configuration with a tick of 999 microseconds, whose tick has no length |
| TokenBucket.TicksPassed | libevent/bufferevent_ratelim.c:129-143 | Between two times the counter counts the whole ticks that passed or one more, wherever it wraps |
| TokenBucket.RefillExact | libevent/bufferevent_ratelim.c:98-110 | The overflow-avoiding refill is min(maximum, limit + ticks * rate) if and only if the limit is within the maximum or the ticks make up for the unsigned difference |
| TokenBucket.RefillAboveMaximum | libevent/bufferevent_ratelim.c:98-101 | A refund above the maximum is not clipped by the refill |
| TokenBucket.RefillPositive | libevent/bufferevent_ratelim.c:98-110 | A bucket with credit keeps some, except when a limit above the maximum wraps around |
| TokenBucket.RefillsCombine | libevent/bufferevent_ratelim.c:76-114 | Several refills equal one combined refill |
| TokenBucket.Bucket.Init | libevent/bufferevent_ratelim.c:49-74 | A new bucket starts with one tick's worth, a reconfigured one is only clipped |
| TokenBucket.Bucket.Update | libevent/bufferevent_ratelim.c:76-114 | A refill happens exactly if the wrapped tick difference is positive as a signed number, and both directions follow the specification |
| TokenBucket.ElapsedAtMost | libevent/bufferevent_ratelim.c:81-88 | However the 32-bit tick counter wraps, no refill counts more ticks than passed |
| TokenBucket.Envelope | libevent/bufferevent_ratelim.c:201-231 | What was spent and what is left is covered by the starting limit and the rate times the ticks; the limit stays between 0 and the maximum, and the bucket is as up to date as the run |
| TokenBucket.WindowBound | libevent/bufferevent_ratelim.c:201-231 | In any window of T ticks at most maximum + rate * T bytes pass |
| TokenBucket.WindowInRun | libevent/bufferevent_ratelim.c:201-231 | The same for every window inside a run |
| RateLimit.Limiter.DecrementReadBuckets | libevent/bufferevent_ratelim.c:281-307 | A read debit suspends exactly when the limit is exhausted, the timer goes on while a direction is suspended and is dropped with the last one, and a refill is still to come |
| RateLimit.Limiter.DecrementWriteBuckets | libevent/bufferevent_ratelim.c:327-353 | The same for writing |
| RateLimit.Limiter.DecrementReadLimit | libevent/bufferevent_ratelim.c:1041-1069 | A manual read decrement suspends or resumes exactly on crossing zero, sets or drops the timer with it, and keeps the invariant |
| RateLimit.Limiter.DecrementWriteLimit | libevent/bufferevent_ratelim.c:1071-1101 | The same for writing |
| RateLimit.Limiter.UpdateBuckets | libevent/bufferevent_ratelim.c:116-127 | Keeps the invariant if and only if no limit above its maximum wraps around |
| RateLimit.Limiter.GetMax | libevent/bufferevent_ratelim.c:201-260 | The allowance is the least of the refilled limit (the cap on single transfers if there is no limit of its own) and the share of the group; without a group it respects the cap if and only if the refilled limit is within it |
| RateLimit.GroupView.Share | libevent/bufferevent_ratelim.c:236-258 | A suspended group gives nothing; otherwise the limit is divided among the members as far as it goes, but nobody gets less than the smallest share |
| RateLimit.GroupView.SharesFit | libevent/bufferevent_ratelim.c:236-255 | The shares of all members stay within the limit of the group if and only if the smallest share times their number does |
| RateLimit.CapIgnored | libevent/include/event2/bufferevent.h:888-906 | With 20000 in the bucket and a cap of 16384 the allowance is 20000 |
| RateLimit.Limiter.RefillCallback | libevent/bufferevent_ratelim.c:422-472 | A direction resumes exactly when its limit is positive again, the timer is set again while one has not, and the invariant holds if and only if no limit wraps around, whatever happened between the timer firing and its callback getting the lock |
| RateLimit.Limiter.SetRateLimit | libevent/bufferevent_ratelim.c:600-690 | Setting, replacing and removing a configuration keeps the invariant in all cases |
| RateLimit.WrapExample | libevent/bufferevent_ratelim.c:98-101 | A concrete limit that a refill turns negative without suspending anybody |
| RateLimit.ResumesWhenPaid | libevent/bufferevent_ratelim.c:422-472 | A suspended direction resumes with the first refill at which the ticks outweigh what it owes |
| RateLimit.Perform | libevent/bufferevent_ratelim.c:281-690 | Every call that does not spoil the buckets keeps the invariant, and does to both limits what it is for |
| RateLimit.Run | libevent/bufferevent_ratelim.c:281-690 | In every run, refunds included, an exhausted direction is suspended and a suspended one has a refill to come, until a call overflows a limit or a refill wraps it; without refunds and below 2^63 bytes in all that never happens |
| Resolvers.Resolver.Pick | libevent/evdns.c:1459-1497 | Picks the next good server of the ring, or any if none is good |
| Resolvers.Resolver.PickGood | libevent/evdns.c:1474-1496 | The loop always finds a good server when one is counted: the assertion behind a full round is unreachable |
| Resolvers.Resolver.SwapNs | libevent/evdns.c:572-583 | Moving a request to another server keeps both servers' counts, and the asserted count is positive |
| Resolvers.Resolver.NameserverFailed | libevent/evdns.c:587-653 | The good count drops exactly if the server was up; if any other is good, no request that was not sent yet stays on the failed one, and requests of other servers are untouched |
| Resolvers.Resolver.Reassign | libevent/evdns.c:629-652 | The walk over all buckets reaches every inflight request |
| Resolvers.Resolver.NameserverUp | libevent/evdns.c:655-675 | The server counts as good once, although cancelling its probe may pump the waiting queue |
| Resolvers.Resolver.Finished | libevent/evdns.c:688-759 | The request leaves its queue and all counts, and nothing waits afterwards that could be inflight; unless a server failed, what was promoted meanwhile is at good servers and everything marked waits for a server that is choked |
| Resolvers.Resolver.Reissue | libevent/evdns.c:767-790 | A request is reissued exactly if another server was picked; then its transmissions start anew |
| Resolvers.Resolver.Pump | libevent/evdns.c:797-827 | Requests are promoted from the front of the waiting list until there is no room, no request or no server; unless a server failed they are at good servers, and after any promotion everything marked waits for a server that is choked |
| Resolvers.Resolver.Find | libevent/evdns.c:485-504 | Looking into one bucket finds a transaction id if and only if some inflight request has it |
| Resolvers.Resolver.PickId | libevent/evdns.c:1440-1454 | The id picked is not the reserved one and no inflight request has it |
| Resolvers.FreeId | libevent/evdns.c:1440-1454 | With fewer than n requests inflight one of n ids is free |
| Resolvers.IdsRunOut | libevent/evdns.c:1440-1454 | Never are more than 65535 requests inflight, and the search for an id can end if and only if there are fewer |
| Resolvers.Resolver.Promote | libevent/evdns.c:809-824 | A promoted request changes list, counters and server count together |
| Resolvers.Resolver.Resolve | libevent/evdns.c:3027-3132 | A new request goes inflight exactly if there is room and a server, otherwise to the end of the waiting list; an inflight one was given to the next good server of the ring, and was sent once, unless the server was choked or its socket blocked: then it is marked |
| Resolvers.Resolver.Submit | libevent/evdns.c:3110-3132 | A request with a server enters its bucket and is sent or marked, by what the socket does; one without enters the waiting list |
| Resolvers.Resolver.SendProbe | libevent/evdns.c:2541-2568 | A probe is forced into the inflight queue, and is sent or marked; with room the ring is advanced for nothing |
| Resolvers.Resolver.ProbeCallback | libevent/evdns.c:2510-2539 | An answer brings the server up, a failure counts against it when it is down, and either takes the probe off; a cancelled probe changes nothing |
| Resolvers.Resolver.Transmit | libevent/evdns.c:2455-2508 | What a transmission does, by whether the server was choked and by what the socket did: the packet goes out and counts, or the request is marked and the server choked, or the server is down; no queue and no counter gets wrong |
| Resolvers.Resolver.TransmitAll | libevent/evdns.c:2573-2601 | Every marked request is sent once, with a packet of its own, and no other; what is still marked is on a choked server, unless some server failed, and a server is choked only if it was before or a socket blocked |
| Resolvers.Resolver.SwapToNext | libevent/evdns.c:2391 | A request is given to the next good server of the ring |
| Resolvers.Resolver.Timeout | libevent/evdns.c:2366-2407 | A request is given up exactly after the allowed number of transmissions, and then its server is down; otherwise it went to the next good server of the ring and was sent there or stays marked, by what the socket does, and exactly one server has a timeout more, or had too many, is down and starts from zero; no server comes up by it |
| Resolvers.Resolver.Refuse | libevent/evdns.c:976-988 | The server that refused is down, and a request that was sent is on another one that is good, if there is one and reissues are left |
| Resolvers.Resolver.ReplyHandle | libevent/evdns.c:933-1043 | The request is finished on good and on other error replies, and then its server is up unless waiting requests were sent to it at once; it is left to time out after a server failure unless it was sent too often, and stays after a refusal only if it was reissued; no other request goes but a probe that is over |
| Resolvers.Resolver.Ready | libevent/evdns.c:1639-1658 | A server that can be written to is not choked any more, unless a socket blocks again, and what is marked is sent |
| ResolverRuns.Perform | libevent/evdns.c:485-3173 | Every operation does what it is for, keeps the lists, counters and ids, the account of requests and probes, every inflight request sent or marked, and leaves nothing waiting that could be inflight, unless it adds a server or sets the maximum |
| ResolverRuns.Run | libevent/evdns.c:485-3173 | From the empty resolver on, whatever sequence of requests, cancellations, timeouts, replies, probes and changes of servers happens and whatever the sockets do: a request of the user about which nothing happened is still there, every one with a server was sent or is marked to be, all requests there are the user's or outstanding probes, and nothing waits that could be inflight unless a server was added or the maximum set since the queue was last pumped |
| Resolvers.Resolver.Cancel | libevent/evdns.c:3135-3173 | Cancelling removes the request from whichever list it is in |
| Resolvers.Resolver.AddServer | libevent/evdns.c:2726-2810 | A new server is good, not choked, has no requests and no failures, and comes second in the ring |
| Resolvers.Resolver.ClearServers | libevent/evdns.c:2632-2700 | The probes are cancelled, all other inflight requests wait, ahead of those that waited before, and no server is counted |
| Resolvers.Resolver.SetMaxInflight | libevent/evdns.c:3738-3770 | After the resize every inflight request is in the bucket of its id modulo the new number of buckets |
| Resolvers.MoveOne | libevent/evdns.c:3753-3764 | Moving one request between the tables keeps each in exactly one bucket |
| RequestList.List.Insert | libevent/evdns.c:2997-3013 | Pointer surgery at the tail of the circular list appends the node |
| RequestList.List.Remove | libevent/evdns.c:2953-2994 | Unlinking takes exactly that node out, also when it is the head or the only one |
| RequestList.List.Advance | libevent/evdns.c:1459-1497 | Shifting the head by one rotates the list |
| RequestList.List.InsertFirst | libevent/evdns.c:2682-2687 | Inserting and shifting the head back puts the node in front |
| RequestList.Turn | libevent/evdns.c:2953-3013 | A circular list can be read from any node on |
| DnsNames.NameParse | libevent/evdns.c:1045-1103 | Succeeds exactly if the name ends and its text fits; the text is the labels joined by dots, the index moves strictly forward behind the name and stays inside the packet, nothing is written beyond the output |
| DnsNames.WalkExact | libevent/evdns.c:1069-1081 | The limit on jumps refuses exactly the names that never end |
| DnsNames.StepsBounded | libevent/evdns.c:1078-1081 | A name that ends takes fewer steps than the message has bytes |
| DnsEncoding.LabelTable.GetPos | libevent/evdns.c:1716-1726 | The position of the first entry with the text, or none has it |
| DnsEncoding.LabelTable.Add | libevent/evdns.c:1729-1744 | A full table is left as it is |
| DnsEncoding.DnsnameToLabels | libevent/evdns.c:1757-1827 | The exact result for every name and every table: behind a pointer in place of the first suffix that is known, or behind the uncompressed name if there is none. The table then has one more entry for each label written, as many as fit, and each is a position at which its text can be read. The closing zero is stored behind the buffer if and only if the uncompressed labels end exactly at its end (`Overruns`). Otherwise the name reads back as its labels up to the first empty one, and ends where the result says if and only if no label before the first known suffix or the last one is empty; compression pointers only go backwards; the two error results mean what the source says |
| DnsEncoding.WroteAt | libevent/evdns.c:1757-1827 | When a name is written its end is two bytes behind the dots before the first known suffix, or, if none is known, one length byte and the closing zero longer than the name |
| DnsEncoding.WriteTwice | libevent/evdns.c:1776-1790 | A name written again with the same table takes two bytes |
| DnsEncoding.OverrunBehindBuffer | libevent/evdns.c:1820-1823 | The name "a" at position 1498 of a buffer of 1500 bytes stores a zero behind it |
| DnsEncoding.Complete | libevent/evdns.c:1783-1826 | When the end of a name is written, all suffixes remembered on the way can be read at their positions |
| DnsEncoding.FoundOld | libevent/evdns.c:1783-1790 | The entry found for the rest of a name belongs to an earlier name |
| DnsEncoding.ReadsWalk | libevent/evdns.c:1045-1103 | A name with backward pointers is what the parser finds |
| DnsEncoding.WriteNames | libevent/evdns.c:1757-1827 | Names written one after another with one table are all in place at the end, each where compression against the earlier ones puts it |
| DnsEncoding.RoundTrip | libevent/evdns.c:1045-1103 | Each of them parses back to its text at its position, and the parser stops where the next begins |
| DnsEncoding.ReadBack | libevent/evdns.c:1757-1827 | A name written alone parses back to its text if and only if no label but the last is empty or it is a dot, and the parser stops where the writer did if and only if none but the last is; it is refused exactly for more than 255 bytes or a label of more than 63 |
| DnsEncoding.EmptyLabel | libevent/evdns.c:1757-1827 | "a..b" does not come back |
| DnsEncoding.DottedLabels | libevent/evdns.c:1746-1750 | The labels up to the first empty one, joined by dots, are the beginning of the name, and all of it (without a dot at the end) if and only if no label but the last is empty or the name is a dot |
| Kfifo.KfifoBuffer.constructor | fsm/KfifoBuffer.cpp:6-20 | The size is a power of two between 2^10 and 2^26, so that wrapping the indices is seamless |
| Kfifo.KfifoBuffer.Store | fsm/KfifoBuffer.cpp:51-54 | The two copies put the bytes where the write index leads and touch no byte that was not read yet |
| Kfifo.KfifoBuffer.Put | fsm/KfifoBuffer.cpp:46-57 | Appends as many bytes as fit |
| Kfifo.KfifoBuffer.Get | fsm/KfifoBuffer.cpp:61-75 | Takes as many bytes as there are from the front |
| Kfifo.KfifoBuffer.Peek | fsm/KfifoBuffer.cpp:79-89 | Shows them without taking them |
| Kfifo.KfifoBuffer.PutAll | fsm/KfifoBuffer.cpp:93-106 | All or nothing |
| Kfifo.KfifoBuffer.GetAll | fsm/KfifoBuffer.cpp:110-126 | All or nothing |
| Kfifo.KfifoBuffer.PeekAll | fsm/KfifoBuffer.cpp:130-142 | All or nothing |
| Kfifo.KfifoBuffer.CommitRead | fsm/KfifoBuffer.cpp:146-150 | Drops bytes that are there; with a length that is not, the ring is in order afterwards if and only if the read index wraps back over free slots only |
| Kfifo.ReadTooMuch | fsm/KfifoBuffer.cpp:146-150 | A byte read from an empty ring leaves it out of order |
| Kfifo.SlotWrapped | fsm/KfifoBuffer.cpp:51-54 | An index may be wrapped at 2^32 before it is reduced to a slot |
| KfifoThreads.PutCopyInv | fsm/KfifoBuffer.cpp:53-54 | A byte copied by the producer never lands on one the consumer may still read |
| KfifoThreads.GetCopyInv | fsm/KfifoBuffer.cpp:70-71 | A byte copied by the consumer is the one that was put there |
| KfifoThreads.StepInv | fsm/KfifoBuffer.cpp:46-126 | Every step of either thread keeps the ring's invariant |
| KfifoThreads.InOrder | fsm/KfifoBuffer.cpp:46-126 | Under every interleaving and across any number of index wraps, the bytes taken are a prefix of the bytes put |
| KfifoThreads.JobsInOrder | fsm/WinWorker.cpp:253-261 | Job records are handed over whole, each once and in order |
| KfifoThreads.Begun | fsm/KfifoBuffer.cpp:46-126 | In every reachable state a put begins with what there is room for and a get with what there is, or each all or nothing |
| KfifoThreads.PutRun | fsm/KfifoBuffer.cpp:93-106 | A record that fits gets in whole, in any state in which no put is under way, and one that does not leaves the ring as it is |
| KfifoThreads.AllHanded | fsm/WinWorker.cpp:253-261 | When nothing is under way, as many gets as there are records between hand over everything that was accepted |
| KfifoThreads.Refused | fsm/WinWorker.cpp:79-80 | A job is refused exactly when its record does not fit |
| MinHeap.Heap.Reserve | fsm/min_heap.h:147-162 | There is room for the slots asked for, and nothing else changes |
| MinHeap.Heap.ShiftUp | fsm/min_heap.h:164-174 | Moving the hole up restores heap order and all back indices |
| MinHeap.Heap.ShiftDown | fsm/min_heap.h:176-189 | Moving the hole down does so too |
| MinHeap.Heap.Top | fsm/min_heap.h:97-100 | The top is due no later than any item |
| MinHeap.TopFirst | fsm/min_heap.h:97-100 | Heap order makes the first item a minimum |
| MinHeap.Heap.Push | fsm/min_heap.h:102-108 | Adds exactly the item |
| MinHeap.Heap.Pop | fsm/min_heap.h:110-120 | Removes exactly a minimal item and sets its index to -1 |
| MinHeap.Heap.Erase | fsm/min_heap.h:127-145 | Removes exactly the named item, wherever it is, and sets its index to -1; an item that is in no heap is left alone |
| MinHeap.Replaced | fsm/min_heap.h:131-141 | The last item in the place of another needs to move up or down, but not both |
| MinHeap.Heap.Drain | fsm/min_heap.h:110-120 | Repeated pops give a sorted permutation of the items |
| Timers.Deadline | fsm/WinWorker.cpp:147-152 | The deadline is the current time plus the interval, with normal microseconds, and later than the current time |
| Timers.Worker.AddLocalTimer | fsm/WinWorker.cpp:104-157 | The clock is read only for the first timer; the new timer is not due |
| Timers.Worker.CancelLocalTimer | fsm/WinWorker.cpp:170-175 | A cancelled timer is gone |
| Timers.Worker.Callback | fsm/WinWorker.cpp:196-199 | Whatever timers a callback adds and cancels, and even if the time is read again, nothing becomes due by it, and every timer is still there or was cancelled |
| Timers.Worker.HandleLocalTimer | fsm/WinWorker.cpp:187-210 | The pass ends; it fires, once each and in order of their deadlines, timers that were due when it began, misses none but cancelled ones, and leaves none due; every timer there was or that a callback added was fired or cancelled or is still there, and the time kept is that of the clock or one a callback read |
| TagFormat.TagRoundTrip | libevent/event_tagging.c:173-247 | A 32-bit tag is read back from its encoding, whatever precedes and follows it |
| TagFormat.TagFits | libevent/event_tagging.c:219-228 | What is accepted as a tag fits into 32 bits |
| TagFormat.TagBytes | libevent/event_tagging.c:173-197 | The bytes of a tag are its digits to the base 128, lowest first, with the high bit on all but the last |
| TagFormat.IntBytes | libevent/event_tagging.c:117-138 | The high half of the first byte is the number of digits to the base 16 less one, its low half the lowest digit, and every further byte has two digits, the lower one in its high half |
| TagFormat.DecodedDigits | libevent/event_tagging.c:320-355 | What is decoded from bytes has just the digits that stand in them |
| TagFormat.IntRoundTrip | libevent/event_tagging.c:117-355 | An integer is read back from its nibbles, whatever follows them |
| TagFormat.IntBelow | libevent/event_tagging.c:320-355 | What is accepted as an integer of 32 bits fits into them |
| TagFormat.HeaderRoundTrip | libevent/event_tagging.c:261-268 | Tag and length of a record are read back and its payload follows |
| EventTagging.EncodeIntInternal | libevent/event_tagging.c:117-138 | The loop that fills nibbles produces the encoding |
| EventTagging.WriteTag | libevent/event_tagging.c:173-196 | The loop that splits off seven bits produces the encoding, of at most five bytes |
| EventTagging.DecodeTagInternal | libevent/event_tagging.c:198-247 | The tag at the start of the buffer, drained if asked for; malformed and truncated tags are refused |
| EventTagging.DecodeIntInternal | libevent/event_tagging.c:320-355 | The integer at an offset, refused if it has too many nibbles or is cut off; nothing is drained |
| EventTagging.Marshal | libevent/event_tagging.c:261-268 | Appends tag, length and payload |
| EventTagging.UnmarshalHeader | libevent/event_tagging.c:442-456 | Drains the header even if the payload is not all there, and says so |
| EventTagging.PeekLength | libevent/event_tagging.c:406-422 | The sum of header and payload, without draining |
| EventTagging.Consume | libevent/event_tagging.c:458-467 | Removes exactly header and payload of a record that is all there, everything if its length is negative as a signed number, and otherwise what could be read of the header |
| EventTagging.PeekThenConsume | libevent/event_tagging.c:406-467 | The length evtag_peek_length tells is what evtag_consume removes, if and only if the payload is shorter than 2^31 bytes or nothing follows the record |
| EventTagging.AllDrained | libevent/event_tagging.c:458-467 | What follows a record of 2^31 bytes or more is drained with it |
| EventTagging.Unmarshal | libevent/event_tagging.c:471-485 | Moves exactly the payload to the other buffer; payloads of 2^31 bytes and more are refused and only the header is gone |
| EventTagging.RoundTrip | libevent/event_tagging.c:261-485 | Marshalling any list of records with payloads below 2^31 bytes and unmarshalling recovers the list and empties the buffer |
| EventTagging.OneThrough | libevent/event_tagging.c:261-485 | Any record that can be marshalled comes back if and only if its payload is shorter than 2^31 bytes |
| EventTagging.MarshalInt | libevent/event_tagging.c:281-302 | Appends a record that holds the integer's encoding |
| EventTagging.UnmarshalInt | libevent/event_tagging.c:489-539 | Accepts exactly a record with the wanted tag whose integer lies within its payload; drains a wanted record in any case, and otherwise the tag or what could be read of the header |
| EventTagging.IntThrough | libevent/event_tagging.c:281-539 | 32-bit and 64-bit integers come back, and what follows them is left |
| EventTagging.UnmarshalTimeval | libevent/event_tagging.c:585-611 | Accepts exactly two integers within the payload of a record with the wanted tag; drains header and payload of every record that is all there, whatever is wrong with it, and otherwise the header |
| EventTagging.TimevalThrough | libevent/event_tagging.c:311-611 | A time comes back, and what follows it is left |

## Left out

- Evbuffers: pinned, reference, multicast, immutable and file chains, so branches on these flags; user callbacks and their counters; locks; deferred freeing.
- Evbuffers: running out of memory for anything but chains, such as the line of evbuffer_readln. The constants are those of a 64-bit platform (48 bytes of header, 1024 bytes at least).
- Evbuffers: the memory of a chain is a `seq` field of fixed length that copies replace, not an array, so aliasing between pointers into a chain is not captured; positions and areas name a chain and an offset instead.
- Evbuffers: evbuffer_add_iovec, evbuffer_peek, formatted printing, and reading from and writing to sockets.
- Evbuffers: results are not truncated to int, as those of evbuffer_remove and evbuffer_remove_buffer are above 2^31 bytes. Assertions of the source are not modelled as stops; where the list is out of order, as after an evbuffer_remove_buffer that was not movable, the one at libevent/buffer.c:311 could fire.
- EvBuffers.EvBuffer.RemoveBuffer: requires room for the sum of both lengths, since the code does not look for an overflow of the counter when it moves whole chains. Which bytes went over is stated for the calls that return with both buffers in order.
- EvBufferRuns.Run: all inputs of a run and the contents together stay below 2^64 bytes, so that no counter overflows.
- Rate limiting: sizes are those of a 64-bit platform. Real time, event loop timers (a pending flag instead, which event_add always sets), allocation, and the totals of a group.
- GroupLimit.StepInv: one direction is modelled, since reading and writing run the same code on their own flags. Taking a member's lock in a loop, changing its bit and giving the lock back is one step: its bit is only touched under that lock. Which limit a group has after a debit or a refill is left open. A bufferevent that left its group when it was finalized does not join another.
- TokenBucket.Envelope: for one bufferevent without a group whose transfers stay within the allowance granted at the same time; shares of members can overcommit a group.
- RateLimit.Limiter.DecrementReadBuckets: the difference must fit the signed 64-bit type, as the code takes for granted.
- DNS queues: requests, servers and transaction ids are records in maps from identities, and the queues lists of identities; `RequestList` proves the pointer structure behind such a list separately. Sockets, packets, the events of servers, search domains, freeing a base, and the option to disable events of inactive servers are left out; what a socket does with a packet is a function of the packet's number, any one: it is sent, is blocked for now, or shows that the server is bad.
- Resolvers.Resolver.AddServer: the address of the server is not modelled, so neither is the refusal of one that is already there, nor the failure to open a socket.
- Resolvers.Resolver.ClearServers: requires that nothing waits or no probe is outstanding; otherwise the cancelling of a probe sends waiting requests through servers that are already freed. An outstanding probe may also have been moved to another server when it was sent again (libevent/evdns.c:2391), which may be freed before the probe is cancelled, whether anything waits or not. Freed memory is not part of this model.
- Resolvers.Resolver.PickId: requires fewer than 65535 requests inflight; otherwise the search for an id never ends (`IdsRunOut`), and a call that does not return has no contract.
- Resolvers.Resolver.SetMaxInflight: requires a maximum of at most 65535, so that waiting requests are only promoted while there are ids.
- Resolvers.Resolver.SendProbe: requires fewer than 65535 requests inflight, for the same reason.
- DNS names: the byte order of the header fields, and requests and replies around the names. A name is its text without the terminating zero of C.
- DnsEncoding.DnsnameToLabels: positions stay below 2^14, as in the buffers of its callers (1500 bytes, or the length of one question).
- Ring buffer: the null target of get, which only drops bytes, and the water marks. `index & mask` is written as the index modulo the size.
- KfifoThreads.InOrder: memory is sequentially consistent, and there is one producer and one consumer at a time, as the queue's mutex and the single worker thread provide. A job refused by a full ring is dropped when assertions are off.
- Heap: new items have index -1, where fsm/WinWorker.cpp:146 makes it 0 for an item that is pushed at once; the number of items fits an int; allocation succeeds.
- Timers: callbacks cancel other timers only, not the one being fired, and have positive intervals; memory management of the items.
- Tagged format: the sixth byte of an overlong tag is loaded before the tag is refused; its value is not used and the model does not read it. Strings, fixed-length data, evtag_marshal_buffer and evtag_payload_length are like the members shown. There is memory: marshalling does not look at the result of evbuffer_add.
- EventTagging.MarshalTimeval: seconds and microseconds below 2^32.
- epoll, IOCP, OpenSSL and filter bufferevents, the adb client, the TCP server and session code: driven by libraries and the operating system.
