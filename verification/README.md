# Verified model of the reactor web server

This project models the stateful core of the web server in Dafny and proves what that core is for. Objects that the
server updates in place are classes here; each method is proved against a function or a relation on abstract values,
and what the server promises is proved about those.

| files | what they model |
|---|---|
| `LfuSpec`, `LfuCache` | the page cache: frequency nodes in a doubly linked list, each with a doubly linked list of keys, and two maps, refining an abstract table with a history |
| `Levels`, `SkipList` | the skip list: linked levels over shared nodes, refining a sorted map for every choice of random levels |
| `DumpText`, `SkipListFile` | dumping a skip list of strings to its store file and loading it back |
| `HttpParser`, `HttpRequests`, `RequestText` | the older connection's request parser: its independence of how the bytes arrive, and which lines of text it accepts and rejects |
| `HttpResponses`, `MissingPages` | which response its one write handler writes for which request, and what a missing page does to the requests behind it |
| `HeaderParser`, `HeaderCuts` | the newer character machine for header fields, on whole heads and on heads cut in two |
| `Arithmetic`, `Carving`, `PoolModel`, `MemoryPool` | the size-class memory pools: padding, carving, free lists, and all 64 pools over one memory |
| `LogModel`, `AsyncLogging` | the double-buffered logger: interleavings of producers and worker, and ownership of the buffers |
| `WakeUpProtocol`, `EventLoop` | the event loop's queue and its wake-up protocol under any interleaving |
| `EpollRearm` | a connection's event handlers: what they write and leave, when they delete it, and how its epoll registration follows |
| `TimerManager`, `TimerHistory`, `HttpTimers` | the older lazy timers: heap and map, what they make of whole runs of refreshes, deletions and sweeps, and how the HTTP connection uses them |
| `Random`, `RandomPeriod` | the skip list's generator and its full period |
| `Decimal` | the two integer printers |
| `Folding` | predicates that stay folded until a proof opens them |

Addresses, counts and clock readings are unbounded non-negative integers unless a width matters; where it does (the
padding of the memory pool, the 64-bit range of printed integers) it is written out. Operating-system calls, the
random source and the bytes a peer sends are parameters. Where the code does not keep a property that its comments or
its shape suggest, the code is modelled as it is and the exact condition is proved:

- padded addresses are aligned only for sizes that divide 2^64, because the subtraction wraps (`Carving.PadAligns`, `Carving.AlignedClasses`);
- a dump is read back unchanged exactly when keys and values are clean (`DumpText.RoundTrip`);
- accepted log messages are all still there if and only if no batch of more than 25 buffers had text behind its first two (`LogModel.NothingLost`); at most 25 messages between two swaps are always safe, and 26 can be too many (`LogModel.FewMessagesLoseNothing`, `LogModel.ManyMessagesLost`); a message as large as a buffer is not accepted;
- the newer integer printer never writes a sign (`Decimal.SignLost`);
- a header line without ": " is rejected by the older parser if and only if nothing behind it has ": " and then a line end; otherwise it becomes part of the next key (`RequestText.LineWithoutColon`);
- the newer header machine does not reject an empty value, although it has a test for one: the line end and the whole next line, be it the blank one, become the value (`HeaderParser.EmptyValue`);
- it reads a head to its end if and only if the head has a field (`HeaderParser.EndsIfFields`), because in front of the first field it skips line ends;
- the newer header machine leaves the buffer as it should if and only if nothing follows the head, because it takes one character more (`HeaderParser.LeavesRest`);
- a head cut in two is read as if it had come whole if and only if no more than its first character, the line feed of the request line, comes before the cut (`HeaderCuts.CutHead`): the machine keeps its place between calls, but not its indices;
- every request gets its own response if and only if every read completes at most one head and does not go on to a request line that asks for something else (`HttpResponses.EveryRequestItsPage`): the channel has one write handler, and it reads the connection when it runs;
- all ways to cut the text of requests give the same parse if and only if every page asked for is there, because a missing page drops whatever arrived with its request (`MissingPages.CutsAgreeIffPagesExist`, `MissingPages.ParsedIffPagesExist`);
- a connection marked deleted outlives the next sweep only behind an open one that has not run out, and always behind one whose deadline is earlier than the later of its own two, because the mark is looked at only in front of the heap (`TimerHistory.UnwantedStays`, `TimerHistory.DeletedLingers`);
- what the last read of a connection brings is never parsed: of the requests sent exactly those are whose heads came whole before it (`HttpRequests.LastReadUnparsed`);
- of all responses built, the socket has taken the front and the rest waits, as long as the page "echo" is not asked for while something waits: it takes the place of what waits (`EpollRearm.HttpConnection.ServeRequest`);
- when a peer closes before its response is out, epoll will tell the connection about room in the socket if and only if it was waiting to write before that turn, because the closing branch sets the events without telling epoll (`EpollRearm.HttpConnection.HandleEvents`);
- a response carries the page as it is now if and only if the cache has not got it or what was stored last is still the page, since nothing ever makes a cached page invalid (`LfuCache.Serve`).

Two parts ask something of their callers, which the program meets. The lazy timers close every connection that is not
deleted exactly at its latest deadline as long as no refresh brings the deadline of an open connection forward
(`TimerHistory.OnlyDeletedLinger`); `TimerHistory.ShortenedLingers` is a run that breaks this. The HTTP connection never
does it, since its keep-alive flag is only ever set and its shorter refresh after a failed read comes behind the mark
(`HttpTimers.NeverShortens`, `HttpTimers.OpenConnectionsAreOnTime`). The wake-up protocol keeps every function from
waiting unnoticed as long as an expired timer does not queue functions. The two callers that queue are the accepting loop
(`WebServer/src/server/webserver.cpp:115`) and, through `RunInLoop`, which runs the function in place on its own loop,
the connection (`WebServer/src/connection/http_connection.cpp:239`). `WakeUpProtocol.LateQueueing` says what breaking
the restriction would do.

## Model

| member | source | states |
|---|---|---|
| `LfuSpec.RunFaithful` | WebServer/src/pagecache/lfu_cache.cpp:99-195 | after every run from an empty cache the table holds, for each key, the value stored last, the number of accesses since then and the time of the last one, and never more keys than the capacity |
| `LfuSpec.OneVictim` | WebServer/src/pagecache/lfu_cache.cpp:155-173 | in every reachable non-empty table exactly one key is least by (access count, last touch) |
| `LfuSpec.StepFaithful` | WebServer/src/pagecache/lfu_cache.cpp:135-183 | a hit or a store keeps the table in agreement with the history |
| `LfuCache.KeyList.Add` | WebServer/src/pagecache/lfu_cache.cpp:29-45 | the key goes to the front of the linked list; pointers and tail represent the new sequence |
| `LfuCache.KeyList.Del` | WebServer/src/pagecache/lfu_cache.cpp:48-57 | the key leaves the linked list, wherever it is; the tail moves when it was last |
| `LfuCache.KeyList.IsEmpty` | WebServer/src/pagecache/lfu_cache.cpp:59-61 | the tail is the dummy exactly when the list holds no key |
| `LfuCache.LinkAfter` | WebServer/src/pagecache/lfu_cache.cpp:103-114 | a new frequency node is linked in behind a given one, at the end or in the middle |
| `LfuCache.Unlink` | WebServer/src/pagecache/lfu_cache.cpp:185-195 | a frequency node is linked out; the neighbours point to each other |
| `LfuCache.LFUCache.NextFreq` | WebServer/src/pagecache/lfu_cache.cpp:99-118 | the list for the next frequency is found or made, so that frequencies stay strictly increasing |
| `LfuCache.LFUCache.AddFreq` | WebServer/src/pagecache/lfu_cache.cpp:99-133 | the key moves to the front of the list of the next frequency, which is made if need be, and an emptied list goes; the invariant of lists and maps is kept |
| `LfuCache.LFUCache.Get` | WebServer/src/pagecache/lfu_cache.cpp:135-148 | a hit appends the value and counts the access, which makes the key the most recent of its frequency; a miss changes nothing |
| `LfuCache.LFUCache.Evict` | WebServer/src/pagecache/lfu_cache.cpp:155-173 | a full cache loses exactly the key that is least by (access count, last touch) |
| `LfuCache.LFUCache.Set` | WebServer/src/pagecache/lfu_cache.cpp:150-183 | for an absent key: room is made by evicting that key from a full cache only, then the key is stored with one access; capacity 0 stores nothing |
| `LfuCache.LFUCache.Del` | WebServer/src/pagecache/lfu_cache.cpp:185-195 | the node of an empty frequency leaves the list, everything else stays |
| `LfuCache.LFUCache.Initialize` | WebServer/src/pagecache/lfu_cache.cpp:71-93 | an empty cache: one dummy frequency node, no keys |
| `LfuCache.LastIsVictim` | WebServer/src/pagecache/lfu_cache.cpp:160-162 | the last key of the first list after the dummy is the least used key |
| `LfuCache.Serve` | WebServer/src/connection/http_connection.cpp:535-567 | a hit gives the page that the history stored last, whatever has become of the file, and is one more hit in the history; a miss gives the file and stores it with one access, in place of the least used page of a full cache, unless the capacity is 0; the response is the page as it is now if and only if the name is not cached or the page stored last is the same; neither cached nor on disk, it fails and changes nothing; the cache stays coherent if it was |
| `LfuCache.Load` | WebServer/src/connection/http_connection.cpp:560-563 | a page read from disk is stored with one access, in place of the least used one of a full cache; table and history say so |
| `SkipLists.SkipList.constructor` | WebServer/include/skiplist/SkipList.h:82-92 | an empty list with a header of the maximal level |
| `SkipLists.SkipList.SearchElement` | WebServer/include/skiplist/SkipList.h:214-245 | finds a key exactly when the map has it and then returns its value; otherwise the value passed in |
| `SkipLists.SkipList.InsertElement` | WebServer/include/skiplist/SkipList.h:133-192 | acts as map update for every choice of level and says whether the key was there; every level, the order, the current level and the element count stay exact |
| `SkipLists.SkipList.DeleteElement` | WebServer/include/skiplist/SkipList.h:247-285 | acts as map removal and says whether the key was there; the loop may stop at the first level that does not hold the node |
| `SkipLists.SkipList.FindPredecessors` | WebServer/include/skiplist/SkipList.h:141-148 | on each level up to the current one, the last node whose key is smaller |
| `SkipLists.Splice` | WebServer/include/skiplist/SkipList.h:179-183 | splicing behind the predecessors on each level of the new node links it into exactly those levels |
| `SkipLists.Unsplice` | WebServer/include/skiplist/SkipList.h:264-269 | skipping the node on each level until the first that does not hold it links it out of all its levels |
| `SkipLists.SkipList.Raise` | WebServer/include/skiplist/SkipList.h:169-174 | new levels start at the header |
| `SkipLists.SkipList.Shrink` | WebServer/include/skiplist/SkipList.h:272-274 | the current level falls to the topmost level in use |
| `SkipLists.SkipList.DisplayLevel` | WebServer/include/skiplist/SkipList.h:289-312 | following a level from the header meets exactly the nodes that reach it, in list order |
| `SkipLists.SkipList.LevelInOrder` | WebServer/include/skiplist/SkipList.h:133-285 | level i holds in strictly ascending key order exactly the nodes of level at least i; none above the current level, some on it unless it is 0 |
| `SkipLists.SplicedLinked` | WebServer/include/skiplist/SkipList.h:179-183 | the cells after a splice are those of the list with the node inserted |
| `SkipLists.SkipsLinked` | WebServer/include/skiplist/SkipList.h:264-269 | the cells after the skips are those of the list without the node, early stop included |
| `SkipLists.Node.constructor` | WebServer/include/skiplist/Node.h:28-34 | a node has one empty forward cell for each of its levels |
| `SkipLists.SkipList.GetRandomLevel` | WebServer/include/skiplist/SkipList.h:316-323 | any level from 0 to the maximum |
| `DumpText.RoundTrip` | WebServer/include/skiplist/SkipList.h:345-408 | loading a dump into an empty map gives the dumped map if and only if its keys are non-empty and free of colons and newlines and its values non-empty and free of newlines |
| `DumpText.LoadIsClean` | WebServer/include/skiplist/SkipList.h:352-408 | whatever the text, only clean pairs are ever loaded |
| `DumpText.LoadDump` | WebServer/include/skiplist/SkipList.h:384-408 | loading the lines of clean pairs stores those pairs in order; a value may contain colons |
| `DumpText.Skipped` | WebServer/include/skiplist/SkipList.h:336-353 | wherever it stands, a line without ':', without a key in front of the first one, or without a value behind it, leaves the map as the other lines make it |
| `DumpText.StoresPair` | WebServer/include/skiplist/SkipList.h:345-353 | any other line is the line of one clean pair |
| `DumpText.LastLine` | WebServer/include/skiplist/SkipList.h:396 | the last line need not be ended |
| `SkipListFile.LessIsStrictOrder` | WebServer/include/skiplist/SkipList.h:144 | the order of string keys is a strict total order |
| `SkipListFile.LessIsLexicographic` | WebServer/include/skiplist/SkipList.h:144 | one key is smaller exactly if the other is larger where they first differ, or goes on behind all of it |
| `SkipListFile.DumpFile` | WebServer/include/skiplist/SkipList.h:362-380 | the bottom level is written from first to last, one line for each pair |
| `SkipListFile.LoadFile` | WebServer/include/skiplist/SkipList.h:384-408 | every line with a non-empty key and value is inserted; a line without a colon repeats the previous pair |
| `SkipListFile.Reload` | WebServer/include/skiplist/SkipList.h:345-408 | a list that is dumped and loaded into an empty one represents the same map exactly when all its pairs are clean |
| `HttpParser.Progress` | WebServer/old_version/src/connection/httpConnection.cc:118-122 | with a line end unread, every step reads on or goes to a lower state in the order request, header, success, error: the loop terminates on all bytes |
| `HttpParser.Drain` | WebServer/old_version/src/connection/httpConnection.cc:118-122 | from any valid state the loop ends with the read position inside the buffer and no line end unread |
| `HttpParser.HttpConnection.FindStrFromBuffer` | WebServer/old_version/src/connection/httpConnection.cc:88-97 | finds the first occurrence from the read position, returns the text before it and moves past it; otherwise changes nothing |
| `HttpParser.HttpConnection.ParseRequestLine` | WebServer/old_version/src/connection/httpConnection.cc:125-173 | reads method, target and version from the read position, with the errors of each |
| `HttpParser.HttpConnection.ParseHeaderLine` | WebServer/old_version/src/connection/httpConnection.cc:175-188 | a blank line ends the head; otherwise one field is read, a later value replacing an earlier one |
| `HttpParser.HttpConnection.FinishError` | WebServer/old_version/src/connection/httpConnection.cc:190-220 | the buffer is emptied, the parse starts over, and the handler for the recorded fault goes into the channel's one slot |
| `HttpParser.HttpConnection.FinishSuccess` | WebServer/old_version/src/connection/httpConnection.cc:222-245 | the buffer is cut behind the head, the connection kept if the head asks for it, and the success handler, which carries nothing of the head, goes into the channel's one slot |
| `HttpParser.HttpConnection.HandleSuccess` | WebServer/old_version/src/connection/httpConnection.cc:247-306 | writes the page that the fields name when the handler runs, or nothing for a POST, and starts the parse over with the buffer kept |
| `HttpParser.HttpConnection.HandleError` | WebServer/old_version/src/connection/httpConnection.cc:308-336 | writes the error page of its fault; the parse goes on where it is |
| `HttpParser.HttpConnection.HandleWrite` | WebServer/old_version/src/reactor/Channel.cc:34-38 | the write event runs the one handler the channel has, if any |
| `HttpParser.HttpConnection.ResetParse` | WebServer/old_version/src/connection/httpConnection.cc:78-85 | the parse starts over; the buffer stays |
| `HttpParser.HttpConnection.Dispatch` | WebServer/old_version/src/connection/httpConnection.cc:121 | one turn of the loop runs the parser of the current state |
| `HttpParser.HttpConnection.HandleRead` | WebServer/old_version/src/connection/httpConnection.cc:100-123 | a read appends its bytes and runs all steps they allow; a failed one starts the parse over and marks the connection deleted |
| `HttpRequests.ChunksDoNotMatter` | WebServer/old_version/src/connection/httpConnection.cc:78-245 | however well-formed heads are cut into chunks, and wherever a written response resets the parse: exactly the complete heads are parsed, in order; each says the method and version sent, the file named (the index page for an empty name) and the last value of each key and nothing else; keep-alive is set once a parsed HTTP/1.1 head has a last Connection field that asks for it; the buffer holds what has come of the next head |
| `HttpRequests.HeadSays` | WebServer/old_version/src/connection/httpConnection.cc:125-245 | what a parsed head says, in terms of the fields that were sent |
| `HttpRequests.AsksInFields` | WebServer/old_version/src/connection/httpConnection.cc:227-230 | the test for keep-alive holds exactly for an HTTP/1.1 request whose last Connection field is Keep-Alive or Keep-alive |
| `HttpRequests.SameCharactersSameHeads` | WebServer/old_version/src/connection/httpConnection.cc:78-123 | two ways to deliver the same characters end with the same parsed heads and the same buffer |
| `HttpRequests.LastReadUnparsed` | WebServer/old_version/src/connection/httpConnection.cc:104-114 | a read that fails or meets the end of the stream parses nothing of what it brings: after any run exactly the requests are parsed whose heads came whole before it, none at all if everything came with it |
| `HttpRequests.Drained` | WebServer/old_version/src/connection/httpConnection.cc:118-122 | from any point inside a head, the loop parses the heads complete in the buffer and stops inside the next one |
| `HttpRequests.LastWins` | WebServer/old_version/src/connection/httpConnection.cc:186 | of several fields with one key the last value is kept |
| `HttpRequests.ResetInHead` | WebServer/old_version/src/connection/httpConnection.cc:78-85 | a reset inside a head loses nothing, because the buffer still begins with that head |
| `HttpRequests.WaitsForBytes` | WebServer/old_version/src/connection/httpConnection.cc:118-119 | the loop never stops with a complete head in the buffer |
| `HttpRequests.RequestStep` | WebServer/old_version/src/connection/httpConnection.cc:125-173 | a well-formed request line is read to its end and gives method, target and version |
| `HttpRequests.FieldStep` | WebServer/old_version/src/connection/httpConnection.cc:175-188 | a well-formed field is read to its end and stored |
| `HttpRequests.AllTold` | WebServer/old_version/src/connection/httpConnection.cc:222-245 | a connection stays once any parsed head has asked for it |
| `RequestText.RequestLine` | WebServer/old_version/src/connection/httpConnection.cc:125-173 | a line of three words: a method other than GET and POST is a bad request; else a file that does not exist (the index page if none is named) is not found; else a version other than HTTP/1.0 and HTTP/1.1 is a bad request; else method, file and version are those of the line and it is read to its end |
| `RequestText.OneWord` | WebServer/old_version/src/connection/httpConnection.cc:127-131 | text without a blank is a bad request |
| `RequestText.TwoWords` | WebServer/old_version/src/connection/httpConnection.cc:141-144 | so is one with a method and no blank behind it |
| `RequestText.LineWithoutColon` | WebServer/old_version/src/connection/httpConnection.cc:175-188 | a header line without ": " is a bad request if and only if nothing behind it has ": " and then a line end; otherwise it is joined to the next key |
| `RequestText.SuffixIs` | WebServer/old_version/src/connection/httpConnection.cc:232-236 | the page type is looked up by the name from its first dot on, or as default |
| `HttpResponses.ResponseOfLastHead` | WebServer/old_version/src/connection/httpConnection.cc:190-336 | whatever bytes arrive: the response that waits is the one of the last head if and only if that head was rejected or method and file are still the ones it asked for |
| `HttpResponses.PageOfLastHead` | WebServer/old_version/src/connection/httpConnection.cc:222-306 | after a read of well-formed requests, the page that waits is the one of the last complete head if and only if the read stops before the next request line is complete or that line asks for the same |
| `HttpResponses.EveryRequestItsPage` | WebServer/old_version/src/connection/httpConnection.cc:222-306 | in every run in which the channel reads and writes in turn, no more responses than heads; and the responses are those the heads ask for, in order, if and only if each read completes at most one head and stops before another request line that asks for something else |
| `HttpResponses.SentTogether` | WebServer/old_version/src/connection/httpConnection.cc:118-122 | requests that come in one read meet that condition only if there is at most one of them |
| `HttpResponses.Serve` | WebServer/old_version/src/connection/httpConnection.cc:78-336 | the connection object itself, after any run: the heads parsed, the buffer, and the exact condition for the responses |
| `HttpResponses.ServeAndClose` | WebServer/old_version/src/connection/httpConnection.cc:78-336 | the same object up to its last read: marked deleted, with exactly the requests parsed that came whole before that read, and nothing of it answered |
| `MissingPages.MissingPageDropsTheRest` | WebServer/old_version/src/connection/httpConnection.cc:146-156 | in one chunk: the requests before the first missing page are parsed, that one is refused with not-found, and the buffer is empty |
| `MissingPages.ParsedIffPagesExist` | WebServer/old_version/src/connection/httpConnection.cc:146-156 | one chunk of requests is parsed whole if and only if every page asked for is there |
| `MissingPages.CutsAgreeIffPagesExist` | WebServer/old_version/src/connection/httpConnection.cc:78-220 | all possible runs that deliver the same text parse the same heads if and only if every page asked for is there |
| `MissingPages.ReadUpToMissing` | WebServer/old_version/src/connection/httpConnection.cc:118-220 | a first read that reaches the request line of the first missing page parses the requests before it and drops everything else it got |
| `HeaderParser.Connection.ParseRequestHeader` | WebServer/src/connection/http_connection.cpp:356-460 | from any place a former call has left, the loop does what the one-character function says, and keeps, cuts or leaves the buffer according to where it stops; where it would cut out a key or value with an index it has not noted, nothing is promised |
| `HeaderParser.Step` | WebServer/src/connection/http_connection.cpp:366-451 | from the start of a head the noted indices stay ordered, so that no key or value is cut out of range and none is empty |
| `HeaderParser.ReadsHead` | WebServer/src/connection/http_connection.cpp:356-460 | a line feed, one or more fields with values of 1 to 256 characters and a blank line are read to the end and collected, the last value of a key winning; the first character of a value may be any |
| `HeaderParser.RejectsLongValue` | WebServer/src/connection/http_connection.cpp:403-413 | a value longer than 256 characters is rejected wherever it stands |
| `HeaderParser.AcceptsShortValues` | WebServer/src/connection/http_connection.cpp:356-460 | a complete head is accepted if and only if no value is longer than 256 characters |
| `HeaderParser.EndsIfFields` | WebServer/src/connection/http_connection.cpp:369-377 | a complete head is read to its end if and only if it has a field: without one the machine is still at the start |
| `HeaderParser.RejectsKeyEnd` | WebServer/src/connection/http_connection.cpp:378-397 | a line end inside a key, and a colon without a space behind it, are rejected wherever they stand |
| `HeaderParser.RejectsLoneReturn` | WebServer/src/connection/http_connection.cpp:415-426 | so is a carriage return behind a value that no line feed follows |
| `HeaderParser.RejectsLoneBlankReturn` | WebServer/src/connection/http_connection.cpp:427-443 | and one at the beginning of the blank line |
| `HeaderParser.EmptyValue` | WebServer/src/connection/http_connection.cpp:398-414 | a field without a value takes its line end and the next line, whatever that is, as its value, and is rejected if and only if that line is longer than 254 characters |
| `HeaderParser.ReadHead` | WebServer/src/connection/http_connection.cpp:356-460 | the whole call on a complete head: success, empty buffer and last-wins headers, or error |
| `HeaderParser.LeavesRest` | WebServer/src/connection/http_connection.cpp:444-456 | behind a complete head the buffer loses one character more: it is left as it should be if and only if nothing follows the head |
| `HeaderCuts.CutHead` | WebServer/src/connection/http_connection.cpp:356-460 | a complete head cut anywhere: the first call waits for more and keeps the buffer from the current line on, with the line feed in front of it; the second ends as one call on the whole head does (same fields, nothing left over) if and only if the first is still at the start, that is, has got no more than the line feed of the request line |
| `HeaderCuts.RunOn` | WebServer/src/connection/http_connection.cpp:367-451 | within one call, stopping and going on at any character changes nothing: only the forgotten indices do harm |
| `Carving.PadAligns` | WebServer/src/memory/memory_pool.cpp:34-37 | with the subtraction wrapping at 2^64, the pad is less than the alignment, and the padded address is aligned if and only if the alignment divides 2^64 or nothing wraps |
| `Carving.PadKeepsEights` | WebServer/src/memory/memory_pool.cpp:34-37 | the pad is a multiple of 8 for addresses and sizes that are |
| `Carving.SlotFits` | WebServer/src/memory/memory_pool.cpp:43-61 | a slot number names a slot inside the block if and only if it is below floor((4096 - 8 - pad) / size), and always past the link |
| `Carving.SlotsAligned` | WebServer/src/memory/memory_pool.cpp:46-57 | slots are multiples of their size if and only if the size divides 2^64 or nothing wraps |
| `Carving.AlignedClasses` | WebServer/src/memory/memory_pool.cpp:115-119 | of the 64 sizes exactly the powers of two divide 2^64 |
| `Carving.SmallestClass` | WebServer/src/memory/memory_pool.cpp:128-129 | a request goes to the smallest class that holds it, fewer than 8 bytes larger |
| `PoolModel.AllocateSafe` | WebServer/src/memory/memory_pool.cpp:83-96 | an allocation keeps the invariant of blocks, free list and registers and gives a slot that was not in use |
| `PoolModel.DeallocateSafe` | WebServer/src/memory/memory_pool.cpp:99-106 | a matched return keeps the invariant, and undoes itself with the next allocation |
| `PoolModel.LiveSlotSafe` | WebServer/src/memory/memory_pool.cpp:40-139 | a slot in use lies inside one block past its link, is a multiple of 8, and overlaps no other slot in use or returned |
| `PoolModel.UserWriteSafe` | WebServer/src/memory/memory_pool.cpp:122-130 | whatever bytes inside a slot in use are written, aligned or not, the free list and the block list stay intact |
| `PoolModel.AllocateConserves` | WebServer/src/memory/memory_pool.cpp:83-96 | slots in use plus returned slots stay all slots carved |
| `PoolModel.DeallocateConserves` | WebServer/src/memory/memory_pool.cpp:99-106 | the same for a return |
| `PoolModel.GrowsOnlyWhenFull` | WebServer/src/memory/memory_pool.cpp:69-71 | a new block is asked for only when every slot of every block is in use |
| `PoolModel.BumpTest` | WebServer/src/memory/memory_pool.cpp:57-71 | the comparison with the last slot address is the comparison of the slot count with the capacity |
| `MemoryPools.MemoryPool.AllocateBlock` | WebServer/src/memory/memory_pool.cpp:40-66 | the new block is linked in front and its first slot given out |
| `MemoryPools.MemoryPool.NofreeSolve` | WebServer/src/memory/memory_pool.cpp:69-80 | the next slot of the block, or the first of a new one |
| `MemoryPools.MemoryPool.Allocate` | WebServer/src/memory/memory_pool.cpp:83-96 | gives a slot that was not in use; the only word it writes is the link of a new block |
| `MemoryPools.MemoryPool.DeAllocate` | WebServer/src/memory/memory_pool.cpp:99-106 | the slot goes to the front of the free list; the only word it writes is that slot |
| `MemoryPools.MemoryManager.constructor` | WebServer/src/memory/memory_pool.cpp:115-119 | 64 empty pools of sizes 8 to 512 |
| `MemoryPools.MemoryManager.UseMemory` | WebServer/src/memory/memory_pool.cpp:122-130 | adds exactly one region of the class size, or of the size itself above 512, to those in use and changes no word of any region in use |
| `MemoryPools.MemoryManager.FreeMemory` | WebServer/src/memory/memory_pool.cpp:132-139 | a matched call takes exactly that region out of use and changes no word of any other |
| `MemoryPools.MemoryPool.Write` | WebServer/src/memory/memory_pool.cpp:83-106 | the owner of a slot may write any of its bytes; the pool stays valid |
| `MemoryPools.MemoryManager.Write` | WebServer/src/memory/memory_pool.cpp:122-139 | the owner of any region in use may write any of its bytes: all pools stay valid, all regions stay in use, and no word of another region changes |
| `MemoryPools.MemoryManager.LiveApart` | WebServer/src/memory/memory_pool.cpp:109-139 | regions in use never overlap, across all pools and large allocations |
| `MemoryPools.MemoryManager.LiveAligned` | WebServer/src/memory/memory_pool.cpp:40-66 | regions in use start at multiples of 8, never at null |
| `LogModel.NothingLost` | WebServer/src/log/async_logging.cpp:34-143 | in every interleaving: file, unwritten batch, queue and current buffer are exactly the accepted messages in order if and only if every batch that went through the erasing had at most 25 buffers or no text behind its first two |
| `LogModel.FewMessagesLoseNothing` | WebServer/src/log/async_logging.cpp:34-143 | if at most 25 messages come between two swaps, nothing accepted is ever lost |
| `LogModel.ManyMessagesLost` | WebServer/src/log/async_logging.cpp:34-118 | 26 or more messages of half a buffer and more before the worker swaps: the first two are left |
| `LogModel.Conservation` | WebServer/src/log/async_logging.cpp:94-143 | in every interleaving the batches taken, the queue and the current buffer are all that was accepted, and the file is the kept part of what was written |
| `LogModel.LargeBatch` | WebServer/src/log/async_logging.cpp:116-123 | a batch larger than 25 buffers puts exactly its first two into the file |
| `LogModel.StepKeepsInv` | WebServer/src/log/async_logging.cpp:95-138 | every assertion of the worker holds: two empty spares and no batch at the top, and a buffer in the batch for each spare given away |
| `LogModel.AlwaysInv` | WebServer/src/log/async_logging.cpp:34-145 | the same after every interleaving from the start |
| `AsyncLoggings.FixedBuffer.Write` | WebServer/include/log/log_stream.h:57-62 | a message is appended if a byte stays free behind it, within the buffer; otherwise nothing changes |
| `AsyncLoggings.FixedBuffer.Reset` | WebServer/include/log/log_stream.h:91-94 | the buffer is empty again |
| `AsyncLoggings.AsyncLogging.constructor` | WebServer/src/log/async_logging.cpp:10-25 | two empty front buffers and two empty spares |
| `AsyncLoggings.AsyncLogging.WriteLog` | WebServer/src/log/async_logging.cpp:34-64 | the message goes into the current buffer, or the full one is queued and the message goes into the next or a new one |
| `AsyncLoggings.AsyncLogging.SwapBuffers` | WebServer/src/log/async_logging.cpp:98-113 | the worker takes queue and current buffer and leaves its spares in their place |
| `AsyncLoggings.AsyncLogging.EraseBatch` | WebServer/src/log/async_logging.cpp:116-118 | a batch larger than 25 keeps its first two buffers |
| `AsyncLoggings.AsyncLogging.WriteBuffer` | WebServer/src/log/async_logging.cpp:121-123 | one buffer of the batch is written to the file |
| `AsyncLoggings.AsyncLogging.RestockSpares` | WebServer/src/log/async_logging.cpp:125-140 | missing spares come back out of the batch, empty, and the rest of it is dropped |
| `AsyncLoggings.AsyncLogging.WorkerStep` | WebServer/src/log/async_logging.cpp:94-143 | each step of the worker is the step of the state machine |
| `AsyncLoggings.AsyncLogging.TopOfLoop` | WebServer/src/log/async_logging.cpp:95-97 | the three assertions at the top of the worker loop |
| `AsyncLoggings.AsyncLogging.NoSharing` | WebServer/src/log/async_logging.cpp:44-54 | current buffer, next buffer, queue, batch and spares are pairwise distinct objects |
| `WakeUpProtocol.ExactlyOnceInOrder` | WebServer/src/event/event_loop.cpp:90-117 | in every interleaving the functions run, the rest of the batch and the queue are the functions in the order they were queued |
| `WakeUpProtocol.NoLostWakeUp` | WebServer/src/event/event_loop.cpp:62-117 | in every interleaving without queueing from expired timers, the loop never blocks with a function waiting and no wake-up there or on its way |
| `WakeUpProtocol.LateQueueing` | WebServer/src/event/event_loop.cpp:75-117 | for every run that meets the restriction on callers: if an expired timer queued a function next, the loop would block on it if and only if no other wake-up is there or on its way |
| `WakeUpProtocol.LateQueueingLoses` | WebServer/src/event/event_loop.cpp:62-117 | there is such a run from the start: one turn in which nothing else happens |
| `WakeUpProtocol.StepOrdered` | WebServer/src/event/event_loop.cpp:90-146 | every step keeps the order, and an unread eventfd has a report pending or its callback to come |
| `WakeUpProtocol.Delivers` | WebServer/src/event/event_loop.cpp:62-76 | a woken loop runs everything queued in one turn |
| `EventLoops.EventLoop.QueueInLoop` | WebServer/src/event/event_loop.cpp:107-117 | the function is queued last; another thread, or the loop thread while it runs queued functions, writes to the eventfd |
| `EventLoops.EventLoop.HandleRead` | WebServer/src/event/event_loop.cpp:138-146 | the eventfd is read back to zero |
| `EventLoops.EventLoop.PerformPendingFunctions` | WebServer/src/event/event_loop.cpp:90-104 | exactly the queue at the swap is run, in order; what those functions and other threads queue meanwhile waits in order and has a wake-up behind it |
| `EventLoops.EventLoop.HandleEvents` | WebServer/src/event/event_loop.cpp:64-72 | event callbacks and other threads queue in front of and behind the wake-up callback; all of it is in the queue, in order, when the queue is swapped |
| `EventLoops.EventLoop.LoopOnce` | WebServer/src/event/event_loop.cpp:62-76 | one turn, with functions queued by event callbacks, by running functions and by other threads throughout: it runs in order what was queued before the swap, leaves in order what was queued after it, and never ends with a lost wake-up |
| `EpollRearm.Channel.UpdateLastEvents` | WebServer/include/event/channel.h:83-87 | says whether the events are the same as before and remembers them |
| `EpollRearm.EpollAdd` | WebServer/src/event/poller.cpp:72-98 | the kernel is armed with the channel events, which are remembered |
| `EpollRearm.EpollMod` | WebServer/src/event/poller.cpp:101-119 | the kernel mask always equals the remembered events; the kernel is called exactly when they changed |
| `EpollRearm.HttpConnection.HandleWrite` | WebServer/src/connection/http_connection.cpp:182-197 | the socket takes the front of what waits, and exactly the rest stays and is asked for; after an error everything stays and the connection has failed; a failed or deleted one writes nothing |
| `EpollRearm.HttpConnection.ServeRequest` | WebServer/src/connection/http_connection.cpp:63-158 | what one attempt does to the state: a response joins what waits (the page echo replaces it), an error page fails the connection, a closed peer is noticed; a connection whose peer has closed serves nothing more |
| `EpollRearm.HttpConnection.Attempt` | WebServer/src/connection/http_connection.cpp:160-179 | the write behind it: what is left is asked for, a roomy socket leaves nothing, and the turn goes on exactly behind a response with more input and an open peer |
| `EpollRearm.HttpConnection.HandleRead` | WebServer/src/connection/http_connection.cpp:63-179 | any number of requests in one turn: the responses of exactly those served are added in order, the loop stops only for a reason, a fault fails the connection and nothing else but a failed write does; what is left to write is asked for |
| `EpollRearm.HttpConnection.HandleUpdate` | WebServer/src/connection/http_connection.cpp:200-241 | an open connection is armed for writing exactly if that was asked for, else for reading; a closing one with something left keeps its old registration; any other is deleted and taken out of epoll |
| `EpollRearm.HttpConnection.Delete` | WebServer/src/connection/http_connection.cpp:55-60 | the connection is over and epoll lets go of it |
| `EpollRearm.HttpConnection.Dispatch` | WebServer/src/event/channel.cpp:45-53 | reading, writing and updating in this order; how much was served and what became of the connection |
| `EpollRearm.HttpConnection.HandleEvents` | WebServer/src/event/channel.cpp:30-54 | over any sequence of events: what the socket has taken and what waits are all responses in order; an open connection stays armed after its first update, for writing whenever something waits; a failed one is deleted; one whose peer has closed is not open again, stays as long as something waits, and is gone when nothing was left at the first attempt; a lone hang-up or an error does nothing but use up a one-shot registration |
| `TimerManagers.TimerManager.AddTimer` | WebServer/old_version/src/reactor/old/Timer.cc:51-60 | the first timer of a channel goes into heap and map, a refresh only into the map; every fd keeps exactly one heap node |
| `TimerManagers.TimerManager.HandleExpiredEvent` | WebServer/old_version/src/reactor/old/Timer.cc:63-79 | the loop terminates (heap size, stale nodes), closes each channel at most once, and leaves nothing or, in front, an open node that has not run out; deleted channels come out from the front only |
| `TimerManagers.TimerManager.Expire` | WebServer/old_version/src/reactor/old/Timer.cc:66-75 | one popped node closes its channel or is replaced by the latest timer; the measure falls |
| `TimerManagers.Outcome` | WebServer/old_version/src/reactor/old/Timer.cc:63-79 | a channel that nobody deleted is closed if and only if its heap node and its latest timer have both run out; a deleted one by then at the latest, and as long as it stays an open node that has not run out lies before its own |
| `TimerHistory.AddTimer` | WebServer/old_version/src/reactor/old/Timer.cc:51-60 | the two deadlines and the mark of every fd stay those that the history gives, also when a closed connection's fd is used again |
| `TimerHistory.SetDeleted` | WebServer/old_version/src/reactor/Channel.h:28 | so they do when a channel is marked deleted |
| `TimerHistory.HandleExpiredEvent` | WebServer/old_version/src/reactor/old/Timer.cc:63-79 | and over the expiry loop, for every fd; exactly the fds that have gone are closed, and what is in front of the heap is what the history has in front |
| `TimerHistory.SweepTracked` | WebServer/old_version/src/reactor/old/Timer.cc:63-79 | what one sweep does to an fd: nothing before its heap deadline is passed; then closed if the latest is passed too, else moved on to the latest; passed means run out, or for a deleted channel in front of the first open node left |
| `TimerHistory.UnwantedStays` | WebServer/old_version/src/reactor/old/Timer.cc:63-79 | a deleted connection stays only behind an open one that has not run out and is no later than its own later deadline, and always behind one that is earlier |
| `TimerHistory.DeadlinesKept` | WebServer/old_version/src/reactor/old/Timer.cc:51-79 | over whole runs, deletions included: at every moment exactly the connections not deleted whose latest deadline no sweep has reached still have their timer, if and only if no sweep stops between an open one's latest deadline and a later one in the heap, or before a deleted one's deadlines |
| `TimerHistory.OnlyDeletedLinger` | WebServer/old_version/src/reactor/old/Timer.cc:51-79 | if no refresh brings an open connection's deadline forward, all but the deleted connections are always closed exactly at their latest deadline |
| `TimerHistory.ShortenedLingers` | WebServer/old_version/src/reactor/old/Timer.cc:51-79 | a run with such a refresh leaves an open connection behind |
| `TimerHistory.DeletedLingers` | WebServer/old_version/src/reactor/old/Timer.cc:63-79 | runs in which a deleted connection stays until an open one with an earlier deadline has run out, whatever its own last refresh |
| `HttpTimers.NeverShortens` | WebServer/old_version/src/connection/httpConnection.cc:108-113 | the calls of the HTTP connection, after a page and after a failed read, never bring an open connection's deadline forward |
| `HttpTimers.OpenConnectionsAreOnTime` | WebServer/old_version/src/connection/httpConnection.cc:229-268 | so every HTTP connection that is not deleted is closed exactly at the first sweep at or after the deadline of its last page |
| `TimerManagers.Top` | WebServer/old_version/src/reactor/old/Timer.h:39-43 | a node of the heap that expires first |
| `RandomNumbers.Random.Next` | WebServer/include/skiplist/Random.h:13-33 | the next seed is seed * 16807 mod (2^31 - 1) and stays in 1 .. 2^31 - 2 |
| `RandomNumbers.Random.constructor` | WebServer/include/skiplist/Random.h:6-11 | bad seeds are replaced by 1 |
| `RandomNumbers.FoldedSum` | WebServer/include/skiplist/Random.h:24-31 | the sum of high and low part, reduced once, is the residue, and is never the modulus |
| `RandomNumbers.NextIsInjective` | WebServer/include/skiplist/Random.h:13-33 | different seeds have different successors |
| `RandomPeriod.FullPeriod` | WebServer/include/skiplist/Random.h:18-21 | from any seed the generator comes to every number from 1 to 2^31 - 2 |
| `RandomPeriod.NoShorterPeriod` | WebServer/include/skiplist/Random.h:18-21 | it comes back to its seed after exactly 2^31 - 2 calls, not earlier |
| `Decimal.RoundTrip` | WebServer/old_version/src/base/LogStream.cc:16-35 | parsing the printed text gives the value back, for every integer |
| `Decimal.FitsTwenty` | WebServer/old_version/src/base/LogStream.cc:43-51 | no signed or unsigned 64-bit value takes more than 20 characters |
| `Decimal.NoLeadingZero` | WebServer/old_version/src/base/LogStream.cc:21-26 | nothing but zero is printed with a leading zero |
| `Decimal.MirroredDigits` | WebServer/old_version/src/base/LogStream.cc:12-13 | the digit table gives the same digit for a remainder and its negation |
| `Decimal.Convert` | WebServer/old_version/src/base/LogStream.cc:17-35 | writes the text and a closing NUL in at most 21 bytes and touches nothing in front of them |
| `Decimal.LineBuffer.FormatInteger` | WebServer/old_version/src/base/LogStream.cc:43-51 | appends the text of the number, or nothing when fewer than 32 bytes are free |
| `Decimal.IntToString` | WebServer/src/log/log_stream.cpp:22-41 | writes the text of the absolute value |
| `Decimal.SignLost` | WebServer/src/log/log_stream.cpp:22-41 | parsing that text gives the value back if and only if it is not negative |

## Left out

- Page cache: releasing nodes and keys (`destory`, `deleteElement`), the mutex, overflow of the frequency counter, and `Set` on a key that is present; its caller stores only after a miss.
- LfuCache.Serve: `disk` is what can be opened and mapped at that moment; the file status and the header line with its size come before the cache section.
- LfuCache.LFUCache.Set: requires an absent key, as its one caller guarantees within one event loop; two loops that miss the same key at once are not modelled.
- Skip list: the mutex, the node destructors, the compile-time variant with `Random::Uniform`, and printing.
- SkipLists.SkipList.GetRandomLevel: does not model the distribution of levels, only their range.
- SkipListFile.LoadFile: takes the file's contents as a string; opening and closing the file are not modelled.
- HttpParser: the table behind the MIME type (the model keeps the suffix it is looked up by), file sizes and contents, the response header lines, and partial writes, which leave text for the next error page to follow.
- MissingPages.CutsAgreeIffPagesExist: which pages exist stays fixed over a run (`hasPage`), as in all of `HttpParser`, `HttpRequests` and `HttpResponses`; the program asks the file system again for each request line.
- HttpParser.HttpConnection.FindStrFromBuffer: the read position is unbounded, so a buffer longer than a 32-bit `int` is not modelled.
- HttpRequests.ChunksDoNotMatter: heads are well-formed in the sense of `WellFormed`: one space after the colon, no carriage return inside a line, and a page that exists (`MissingPages` takes up the others); for other bytes there are the lines of `RequestText`, and `HttpParser.Progress`, `HttpParser.Drain` and `HttpResponses.ResponseOfLastHead` for all.
- HeaderParser.Connection.ParseRequestHeader: nothing is said about a call that cuts out a key or value with an index it has not noted; its behaviour is undefined in the program.
- The newer request-line parser: its tests for a missing delimiter compare unsigned values with zero and never fire.
- MemoryPools: each allocation and each return is one step; the unlocked test in `nofree_solve` and the destructor are not modelled.
- MemoryPools.MemoryManager.FreeMemory: requires a matched call (an address in use, with a size of the same class), which the source does not check.
- AsyncLoggings: fatal messages, `Stop` and what follows it, the timed wait, flushing, and partial writes to the file.
- AsyncLoggings.AsyncLogging.SwapBuffers: the wait inside the locked section is taken to end before it; what producers do during the wait comes before the swap.
- WakeUpProtocol: stopping the loop, and the limit of the eventfd counter, which is unbounded here.
- EventLoops.EventLoop.LoopOnce: another thread queues and wakes in one step; the moments between the two are part of `WakeUpProtocol`.
- EpollRearm: `epoll_ctl` is taken to succeed; timers; parsing inside a turn and what the socket takes are parameters; an error page is written once, outside the account of responses, and its rest is dropped (`http_connection.cpp:264-267`).
- TimerManagers: the wrap of the clock at 10000 seconds; the clock never goes backwards.
- TimerManagers.TimerManager.AddTimer: requires an open channel whose fd is not in use by another one, as descriptors are while they are open.
- TimerHistory.HandleExpiredEvent: between a deleted channel and an open one with the same deadline either may come first; the event records which did.
- HttpTimers.NeverShortens: the fields behind the calls (`keepAlive_`, the clock) are the conditions of `Ordinary`; the FTP connection refreshes only after marking its channel deleted (`ftpConnection.cc:143-144`) and has no calls here.
- TimerManagers.Top: the layout of the heap; which of several nodes with the least deadline comes first is left open.
- RandomNumbers.Random.constructor: `Uniform`, `OneIn` and `Skewed` are not modelled, and 32-bit storage is exact because no intermediate value exceeds it.
- Decimal.LineBuffer.FormatInteger: floating-point numbers and the other stream operators.
- The newer timer heap, thread pool, blocking queue, accept loop, FTP connection, file operations, clients and pages: plumbing around system calls or simpler forms of what is modelled.
