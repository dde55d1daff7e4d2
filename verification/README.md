# Proofs about the guest-to-host graphics pass-through

The repository forwards Glide and OpenGL calls from a guest to the host through shared memory. These Dafny modules
model the parts of it that keep state across calls and across the two sides, and prove what each of them is for. Where
the code works in place, the model does too: shared areas, rings and tables are arrays, and the structures of the
source are classes whose methods are proved against functions of the old state.

| module | what it models |
|---|---|
| `GlideAbi`, `GlideQueue`, `GlideHost`, `GlideFifo`, `GlideSymbols` | the Glide 2.43 command FIFO: guest wrappers, the host's drain loop on any contents of the area, the two separately written size rules, indexed polygons, the argument counts taken from symbol names |
| `VertexCache`, `VertexStream` | vertex address lookup, the slices a draw sends, the index scan; the guest wrapper's table of arrays and runs of calls through both halves |
| `KeptRegions` | the KVM region left standing after an unmap, against the code that always removed it |
| `GuestPlacement`, `BufferObjects` | mapped buffer objects: guest address placement, the staging area, flush and unmap |
| `GlContexts` | level and pbuffer contexts, the remembered current context, the frametap table, the attribute cache |
| `FrametapPage` | the sequence-locked page, store by store, against a reader at any speed |
| `FlightRecorder` | the event ring and its flushes against an unbounded log |
| `TimerTable` | the sixteen-slot timer table with callbacks outside the lock |
| `VsyncPacing` | the grid of deadlines a guest's frames wait for |
| `AcpiCounter` | the 24-bit ACPI timer extended to 64 bits, and its conversion |
| `Md5` | the page digest against RFC 1321 |
| `DivMod` | quotients and remainders by a variable, shared by two of the modules |

The host's API is a log of executed calls. Guest memory, at the time of each call, is a function from byte addresses.
In `BufferObjects` each copied mapping has a view of its own beside the shared area, and what the methods promise
speaks only of views and host buffers: the area behaves as if every mapping had private memory.
Clocks, the host's answers (addresses of new contexts and mappings, the end of a sleep) and the timer port are
parameters.

## What turned out to hold only in part

* Batching is transparent for every call but one, as long as payloads find room (`Run`). `guTexDownloadMipMapLevel` on a handle the wrapper does not know
  sends no payload, yet the host still stores its pointer at the data cursor. What is queued or trapped behind it still
  arrives, wherever the host has the area, exactly if nothing there touches the data area but more such levels and at
  most one fog table with nothing of the kind behind it: its count is spoilt, its entries are not (`NativeExactly`,
  `FogTableLast`, `DrawIsLost`; `Spoil` gets there from a fresh link with any such calls, `LostPoint` with a point). A
  call that always traps ends this, as the end of a frame does (`SwapEndsDrain`). An index that is negative or too large
  takes the host out of its vertex cache (`NativeStep`).
* A wrapper writes its payload before it looks at the guard, and up to 2.8 MB can be queued in front of it by then.
  `Overruns` says for which calls one ends past the output page, and `FullQueue` does it with triangles and a screenful
  of pixels. Payloads of at most 61440 bytes always find room (`SmallPayloadsFit`), and so does any texture that fits an
  empty queue behind the size query its wrapper makes (`DownloadFits`).
* `grLfbReadRegion` is answered behind the queued payload and read at the start of the data area: the reply arrives
  exactly when nothing that carries data was queued (`ReadBackLands`, `LateReply`).
* A buffer that goes above earlier ones, as it wants or because there is no room below, can share a page with one whose
  size and page offset do not add up to whole pages; `ChosenIsApart` says exactly when, and `SmallBuffersShareAPage`
  shows it for any two small buffers in one host page.
* A flush without a length copies everything behind its offset (`EmptyFlush`). A write mapping that is flushed without
  the flag for explicit flushes loses at unmap what lies outside the range of the last flush (`Session`, `LostByte`).
* The attribute cache describes a context that is there unless a creation with a new list fails while the display is not
  active or contexts outlive a deactivation; the same request is then answered with the missing context (`CreateAlone`,
  `RepeatOfFailure`). Closing the display is sound exactly when only level 0 is left (`WndRelease`); a pixel format set
  on a replaced window and the unloading of the library do it all the same (`ReplacedUnderLevel`,
  `UnloadedUnderPbuffer`). A present on a destroyed context that is still bound leaves a key behind, if the frametap
  table has room (`Present`). A pbuffer without a width loses its context to the next one (`CreatePbuffer`).
* A vertex array of an address below the page size, found in a block that starts there, points outside that block
  (`SetPointer`, `StrayPointer`); until then every draw finds its elements in the cache (`VertexStream.Run`). The arrays of
  one `glInterleavedArrays` are sent with one draw only: the next sees what the guest has by then exactly where nothing
  has changed (`SecondDraw`).
* The timer poll compares trigger times as unsigned numbers but judges what is due by the signed difference: a timer
  that is due can wait behind one that is not exactly if a wrap of the tick lies between them (`WaitsExactly`,
  `OverdueTimerWaits`). A re-armed slot is cleared by the old callback's return exactly for a one-shot a multiple of
  4096 counter steps later (`Return`).
* Consecutive frames can come at once when a sleep oversleeps by a frame time, and only then
  (`OversleptFrameIsFollowedAtOnce`). The converted ACPI count goes back exactly when its product leaves 63 bits
  (`GoesBackExactly`). The MD5 padding is RFC 1321's exactly below 2^29 bytes
  (`PaddingIsRfc`), and below that the digest is.

## Model

| member | source | states |
|---|---|---|
| GlideAbi.AlignedIsEvenWords | qemu-0/hw/3dfx/g2xfuncs.h:207 | the guest's rounding of a chunk to an even word count and the host's rounding to eight bytes are the same |
| GlideAbi.ArgCountsAgree | qemu-0/hw/3dfx/glide2x_impl.c:254-269 | for every call that can be queued the host's argument count, from the symbol table, is the count the wrapper passes |
| GlideAbi.KindsAgree | qemu-0/hw/3dfx/glidept_mm.c:195-482 | both ends sort every 2.43 function number into the same payload layout |
| GlideAbi.DrawsByNumber | qemu-0/hw/3dfx/g2xfuncs.h:6-109 | what the drawing calls read in guest memory, function number by function number: vertices of 60 bytes behind each pointer, a list of them, or an index list and the vertices it names |
| GlideAbi.TexturesByNumber | qemu-0/hw/3dfx/g2xfuncs.h:44-129 | the same for fog table, textures, texture tables and texture sources: which argument is the address, and how many bytes lie there |
| GlideAbi.OthersByNumber | qemu-0/hw/3dfx/g2xfuncs.h:60-104 | the same for the calls that always trap, and that no other call reads anything |
| GlideAbi.DataIsQueued | wrappers/3dfx/dso/glidedso.c:255-259 | of the calls with data exactly those are queued whose answer the guest does not read |
| GlideAbi.TotalOfVertices | wrappers/3dfx/dso/glidedso.c:399-407 | each vertex of a polygon takes sixteen words of the stream |
| GlideAbi.IndexedSizesAgree | wrappers/3dfx/dso/glidedso.c:416-423 | for an indexed polygon of any length the host's size is what the wrapper pushed |
| GlideAbi.SizeRulesAgree | qemu-0/hw/3dfx/glidept_mm.c:195-482 | for every call and every argument the host's payload size is exactly the words the guest wrapper pushed, on an eight byte boundary |
| GlideQueue.LaidSnoc | wrappers/3dfx/dso/glidedso.c:137-146 | a chunk added at the data counter lies behind the ones before it, at an even offset |
| GlideQueue.LaidVertices | wrappers/3dfx/dso/glidedso.c:416-423 | vertex i of a polygon lies sixteen words times i into the stream |
| GlideQueue.QueuedEnds | qemu-0/hw/3dfx/glidept_mm.c:896-916 | walking the queue with the host's own steps never passes the guest's counters, and stops at the entry counter only when it is empty |
| GlideQueue.QueuedFrame | qemu-0/hw/3dfx/glidept_mm.c:896-916 | a queue is not disturbed by writes outside its entries and payload |
| GlideQueue.QueuedSnoc | wrappers/3dfx/dso/glidedso.c:126-135 | an entry and payload added at the counters extend the queue by one call |
| GlideQueue.DrawsArrive | qemu-0/hw/3dfx/glidept_mm.c:200-227 | fixed vertices and counted lists: the words behind the host's pointers are those the API would have read in the guest |
| GlideQueue.CopiesArrive | qemu-0/hw/3dfx/glidept_mm.c:236-338 | payload copied to the output page first reaches the API unchanged |
| GlideQueue.MipMapArrives | qemu-0/hw/3dfx/glidept_mm.c:434-445 | texels and the optional trailing table are found whichever of the two were sent |
| GlideQueue.BlocksArrive | qemu-0/hw/3dfx/glidept_mm.c:308-403 | textures, tables and fog: the words behind the host's pointer are those the API would have read in the guest |
| GlideQueue.LevelArrives | qemu-0/hw/3dfx/glidept_mm.c:446-455 | the texels of one level survive the pointer the host stores behind them |
| GlideHost.HostSizeRight | qemu-0/hw/3dfx/glidept_mm.c:906-916 | the size worked out at a call's own payload is the words that payload takes, the fog table's count word included |
| GlideHost.DataArrives | qemu-0/hw/3dfx/glidept_mm.c:195-482 | for every layout but indexed polygons the API gets its native data |
| GlideHost.PolygonLaid | qemu-0/hw/3dfx/glidept_mm.c:457-474 | the index list and the vertex stream are where the host looks for them |
| GlideHost.ScatteredAre | qemu-0/hw/3dfx/glidept_mm.c:460-470 | however often an index is repeated, what the cache holds under it is its own vertex |
| GlideHost.PolygonArrives | qemu-0/hw/3dfx/glidept_mm.c:457-474 | an indexed polygon reaches the API as it was in the guest |
| GlideHost.ExtentFits | qemu-0/hw/3dfx/glidept_mm.c:195-482 | what the host touches is a call's own payload and no more, for every call but a texture level that was not sent |
| GlideHost.ReachesExactly | qemu-0/hw/3dfx/glidept_mm.c:457-474 | of what a wrapper sent, only an index that is negative or too large takes the host out of its memory |
| GlideAbi.LargestIndex | qemu-0/hw/3dfx/glidept_mm.c:457-474 | the largest index whose vertex still ends inside a signed 32-bit offset is 35791393 |
| GlideHost.NativeStep | qemu-0/hw/3dfx/glidept_mm.c:896-916 | a call with its payload at the cursor runs natively and moves the cursor past that payload, exactly when its indices are in range |
| GlideHost.BlindStep | qemu-0/hw/3dfx/glidept_mm.c:446-455 | a texture level of an unknown handle runs natively, but the two words at the cursor become the host's pointer and the cursor stays |
| GlideHost.UntouchedStep | qemu-0/hw/3dfx/glidept_mm.c:195-482 | a call that touches nothing of the data area runs natively whatever the area holds and wherever the cursor is |
| GlideHost.FogStep | qemu-0/hw/3dfx/glidept_mm.c:396-402 | a fog table at a spoilt cursor still finds its entries, but the cursor moves by the spoilt count, or is lost when that is no size in signed 32 bits |
| GlideHost.Sensitive | qemu-0/hw/3dfx/glidept_mm.c:195-482 | any other call that touches the area is not the native one once the word at the cursor is not the one that was sent |
| GlideHost.CallSame | qemu-0/hw/3dfx/glidept_mm.c:896-916 | what a call does depends on nothing in front of the data area, so that the counters may be rewritten between queue and trapped call |
| GlideHost.CarriesRun | qemu-0/hw/3dfx/glidept_mm.c:896-916 | a drain of calls that carry is native wherever the host has the area, and for any other pointers it might store |
| GlideHost.CarriesOnlySo | qemu-0/hw/3dfx/glidept_mm.c:896-916 | a drain of calls that do not carry is not native when the stored pointer shows: as another first word than was sent, or as a size that takes the cursor out of the area |
| GlideHost.OneBaseShows | qemu-0/hw/3dfx/glidept_mm.c:453 | of two page-aligned places for the area one always makes it show |
| GlideHost.NativeExactly | qemu-0/hw/3dfx/glidept_mm.c:896-916 | a drain with its trapped call is native wherever the host has the area, at a page boundary of a 47-bit address space, exactly when indices are in range up to the first texture level that was not sent, and behind it nothing touches the data area but more such levels and one fog table with nothing of the kind behind it |
| GlideHost.LegalCarries | qemu-0/hw/3dfx/glidept_mm.c:446-455 | sequences without such levels and without indices out of range carry |
| GlideHost.FogTableLast | qemu-0/hw/3dfx/glidept_mm.c:396-402 | payload behind such a level is not always lost: a fog table that comes last arrives |
| GlideHost.DrawIsLost | qemu-0/hw/3dfx/glidept_mm.c:446-455 | any other touching call is, with or without a fog table in front of it |
| GlideHost.CarriesSplit | wrappers/3dfx/dso/glidedso.c:255-259 | both parts of a sequence that carries do, wherever the guards cut it into drains |
| GlideFifo.ReadBackLands | wrappers/3dfx/dso/glidedso.c:543-551 | what the guest reads back is the reply, for every reply, exactly when no payload was queued before it |
| GlideFifo.GuardIs | wrappers/3dfx/dso/glidedso.c:255-259 | the guard in numbers: entries stay below word 65536, and the payload, counted in, below word 704512 of the data |
| GlideFifo.CollectIsScattered | qemu-0/hw/3dfx/glidept_mm.c:457-474 | read through the indices, that cache gives the vertices of the stream by their last place in the list |
| GlideFifo.QueuePop | qemu-0/hw/3dfx/glidept_mm.c:896-916 | the head of the queue is at both cursors and the rest right behind what the host steps over |
| GlideFifo.EntryRead | qemu-0/hw/3dfx/glidept_mm.c:896-907 | number, count and arguments the host reads are those the guest wrote |
| GlideFifo.QueueDone | qemu-0/hw/3dfx/glidept_mm.c:896-916 | the entry cursor meets the counter exactly when no call is left, and then the data cursor is where the queued payload ends |
| GlideFifo.QueuedLaid | qemu-0/hw/3dfx/glidept_mm.c:896-916 | queue and trapped payload, as the guest leaves them, are what the drain starts from |
| GlideFifo.LegalCursor | qemu-0/hw/3dfx/glidept_mm.c:896-936 | with legal calls the data cursor ends where the queued payload does, and the trapped call's payload is used up exactly |
| GlideFifo.TransparentExactly | qemu-0/hw/3dfx/glidept_mm.c:881-936 | from the area as the guest leaves it when a call traps, queue and call are native wherever the host has the area exactly when they carry |
| GlideFifo.SwapEndsDrain | wrappers/3dfx/dso/glidedso.c:330-333 | a texture level that was not sent spoils nothing behind the end of the frame: such a run carries drain by drain, though not as one drain |
| GlideFifo.QueuedWordsAre | wrappers/3dfx/dso/glidedso.c:137-146 | the data counter is where the payloads of the queued calls end |
| GlideFifo.FitNeverOverruns | wrappers/3dfx/dso/glidedso.c:255-259 | if each payload finds room behind whatever queue the data guard lets stand in front of it, none overruns, whichever way the guards go |
| GlideFifo.SmallPayloadsFit | wrappers/3dfx/dso/glidedso.c:255-259 | payloads of at most 61440 bytes always find that room |
| GlideFifo.DownloadFits | wrappers/3dfx/dso/glidedso.c:716-745 | and so does any payload that fits an empty queue, behind a call that traps, as the size query in front of a texture download does |
| GlideFifo.GlideLink.constructor | wrappers/3dfx/dso/glidedso.c:85-110 | both counters at their first word, nothing queued |
| GlideFifo.GlideLink.FifoAddEntry | wrappers/3dfx/dso/glidedso.c:126-135 | number and arguments, in that order, at the entry counter, which moves past them; nothing from the data counter on is touched |
| GlideFifo.GlideLink.FifoAddData | wrappers/3dfx/dso/glidedso.c:137-146 | the words at the data counter, which moves on by an even count; nothing before them and nothing of the output page is touched |
| GlideFifo.GlideLink.AddPayload | wrappers/3dfx/dso/glidedso.c:416-423 | all chunks of a wrapper lie in order from the old counter on |
| GlideFifo.GlideLink.StoreArgs | wrappers/3dfx/dso/glidedso.c:421 | the arguments in words 2 and up, below the queue |
| GlideFifo.GlideLink.CopyOut | qemu-0/hw/3dfx/glidept_mm.c:236-338 | the output page gets the words the case copies, and nothing else changes |
| GlideFifo.GlideLink.ParkPointer | qemu-0/hw/3dfx/glidept_mm.c:453-454 | the two words behind the texels become the host's pointer, and no other changes |
| GlideFifo.ScatterPolygon | qemu-0/hw/3dfx/glidept_mm.c:460-470 | a cache with room for the largest index holds under every index the last vertex the stream has for it |
| GlideFifo.GlideLink.ProcessPolygon | qemu-0/hw/3dfx/glidept_mm.c:457-474 | for any contents of the area the words handed out are the index list and, per index, the last vertex of the stream under it |
| GlideFifo.GlideLink.ProcessArgs | qemu-0/hw/3dfx/glidept_mm.c:195-482 | for any call and any contents of the area: out of memory, or size, data and area as the specification of one host call has them |
| GlideFifo.GlideLink.ProcessEntry | qemu-0/hw/3dfx/glidept_mm.c:896-916 | one round runs the call whose entry is next, as specified for it, and leaves entries, arguments and counters alone |
| GlideFifo.GlideLink.ProcessFifo | qemu-0/hw/3dfx/glidept_mm.c:881-936 | the drain is the specification's over all queued calls; the entry cursor ends on the entry counter, and the data counter is left with the difference to the data cursor |
| GlideFifo.GlideLink.TrappedCall | qemu-0/hw/3dfx/glidept_mm.c:1012-1023 | the trapped call, at the cursor the drain left, with its own arguments, and both counters at their first word afterwards |
| GlideFifo.GlideLink.Trap | qemu-0/hw/3dfx/glidept_mm.c:1010-1023 | the queue, then the trapped call, as specified for any calls, and where the data cursor stands in between; with legal ones the value tested as a leak is 0, or 2 when nothing with payload was queued |
| GlideFifo.GlideLink.LayOut | wrappers/3dfx/dso/glidedso.c:416-423 | payload and arguments of a wrapper leave the queue and the output page as they were |
| GlideFifo.GlideLink.GuestCall | wrappers/3dfx/dso/glidedso.c:255-259 | any call: its payload overruns exactly when it does not fit before the output page; otherwise it is queued exactly when the guard holds, or queue and call are drained as specified; if they carry, executed and queued calls together grow by this one, natively |
| GlideFifo.GlideLink.Run | wrappers/3dfx/dso/glidedso.c:255-259 | for every sequence of calls, with payloads of any size, texture levels that were not sent included, and every way the guards go: a payload overruns exactly when `Overruns` says so of the counters, never if each finds room behind what its drain can have queued; without that, if every stretch that can be one drain carries, the calls executed and still queued are those a native library would have seen, in order; the counters stay in bounds |
| GlideFifo.GlideLink.ReadRegion | wrappers/3dfx/dso/glidedso.c:543-551 | what the guest gets is the reply shifted by how far the host's data cursor has moved, for legal calls by the queued payload |
| GlideFifo.LateReply | wrappers/3dfx/dso/glidedso.c:543-551 | a queued point and a read on a fresh link: the guest does not get the reply |
| GlideFifo.Spoil | qemu-0/hw/3dfx/glidept_mm.c:881-936 | any calls of one drain that do not carry, where the guards queue all but the last and that one traps, are run by a fresh link, with the area at a possible place, to a log that is not native |
| GlideFifo.LostPoint | wrappers/3dfx/dso/glidedso.c:987-997 | on a fresh link a texture level of an unknown handle, a point and a call that traps leave a log that is not the native one |
| GlideFifo.FullQueue | wrappers/3dfx/dso/glidedso.c:565-569 | 14677 triangles queued from a fresh link and a region of 614400 bytes: its payload ends past the area |
| GlideSymbols.ValueOfDecimal | qemu-0/hw/3dfx/glide2x_impl.c:247-252 | reading back the digits of a number gives the number |
| GlideSymbols.GetNumArgs | qemu-0/hw/3dfx/glide2x_impl.c:247-252 | for any name and size the count is the bytes behind the sign, in words |
| VertexCache.LookupIsStable | qemu-1/hw/mesa/mglvarry.c:35-81 | a lookup that found a block finds the same block after any number of appended ones |
| VertexCache.NewBlockReaches | qemu-1/hw/mesa/mglvarry.c:51-70 | a new block takes the addresses from a block's size below the one it is made for to those above it with half a block's size left, and no others |
| VertexCache.MesaArrays.LookupVertArry | qemu-1/hw/mesa/mglvarry.c:35-81 | the block is the first that fits, or the one made behind all others when none does; room is at least half the size asked for, and address and room end where the block ends exactly if the handle is not below the block |
| VertexCache.MesaArrays.InitGuest | qemu-1/hw/mesa/mesapt_mm.c:110-122 | with no array buffer bound the array stands for the guest address, and points into its block exactly if the address is not below the block it is found in among those there were, or the one made for it; otherwise it has no room |
| VertexCache.MesaArrays.SetPointer | qemu-1/hw/mesa/mesapt_mm.c:1037-1107 | a pointer call makes one array stand for the guest address, and all arrays keep pointing into their blocks exactly if a buffer is bound or the address is not below the block it is found in, told from the blocks before the call |
| VertexCache.MesaArrays.SetInterleaved | qemu-1/hw/mesa/mesapt_mm.c:1108-1116 | the same for the interleaved array, which is switched on |
| VertexCache.StrayPointer | qemu-1/hw/mesa/mesapt_mm.c:110-122 | the first pointer call for an address in the first page, no larger than the blocks are long, leaves an array that points outside its block |
| VertexCache.TwoArrays | qemu-1/hw/mesa/mesapt_mm.c:245-285 | of two arrays that are set and enabled, one with a buffer bound, only the other stands for guest memory |
| VertexCache.MesaArrays.Push | qemu-1/hw/mesa/mesapt_mm.c:129-145 | exactly the bytes that fit land in the block, nothing else changes, and overflow is reported exactly when something did not fit |
| VertexCache.PushMirrors | qemu-1/hw/mesa/mesapt_mm.c:129-145 | a slice of guest memory pushed where it belongs makes the cache mirror it and spoils no byte that mirrored already |
| VertexCache.RefreshKeepsSlice | qemu-1/hw/mesa/mesapt_mm.c:331-465 | a mirrored slice stays mirrored under later pushes, overlapping or not |
| VertexCache.SliceCovers | qemu-1/hw/mesa/mesapt_mm.c:351-357 | the words sent cover all elements, and the stream stays on eight byte boundaries |
| VertexCache.MesaArrays.PushArray | qemu-1/hw/mesa/mesapt_mm.c:350-360 | one array's turn mirrors its slice |
| VertexCache.MesaArrays.PushInterleaved | qemu-1/hw/mesa/mesapt_mm.c:337-348 | an interleaved array is mirrored alone and switched off |
| VertexCache.MesaArrays.PushSeparate | qemu-1/hw/mesa/mesapt_mm.c:349-465 | every array that is sent is mirrored after all of them, and the stream is used up exactly |
| VertexCache.MesaArrays.PushVertexArray | qemu-1/hw/mesa/mesapt_mm.c:331-465 | after a push the cache equals guest memory on every slice that was sent, as far as each block has room |
| VertexCache.SliceMirrorsElement | qemu-1/hw/mesa/mesapt_mm.c:331-465 | a mirrored slice mirrors every element in it |
| VertexCache.ElementAt | qemu-1/hw/mesa/mesapt_mm.c:350-360 | element v begins v strides behind the first, or v element sizes when the stride is 0 |
| VertexCache.ElementShown | qemu-1/hw/mesa/mesapt_mm.c:350-360 | of a mirrored element every byte the block has room for is the one the guest has that many bytes behind the address of the pointer call |
| VertexCache.MesaArrays.DrawArrays | qemu-1/hw/mesa/mesapt_mm.c:1358-1366 | every element of the draw is mirrored for every array that is sent |
| VertexCache.FirstDraw | qemu-1/hw/mesa/mesapt_mm.c:1358-1366 | from a fresh context to the first draw: with the slice behind its address as the stream, every element of the array is in the cache; byte o of element v is the guest's at the address of the pointer call, plus v strides or v element sizes, plus o |
| VertexCache.IndexBounds | qemu-1/hw/mesa/mesapt_mm.c:1379-1412 | the scanned range holds every index and is spanned by two of them |
| VertexCache.ScanIndices | qemu-1/hw/mesa/mesapt_mm.c:1383-1412 | the two scans give the least and the largest index, and 0 for an empty list |
| VertexCache.MesaArrays.DrawElements | qemu-1/hw/mesa/mesapt_mm.c:1372-1461 | every element an index list names, base vertex added, is mirrored for every array that is sent |
| VertexCache.MesaArrays.Reset | qemu-1/hw/mesa/mesapt_mm.c:509-525 | no block and no array is left |
| VertexStream.SliceAlike | wrappers/mesa/src/wrapgl32.c:94-105 | the slice the guest sends for an array is the slice the host expects for the array that stands for it |
| VertexStream.StreamAlike | wrappers/mesa/src/wrapgl32.c:313-367 | what the guest sends for its table is what the host reads for its own, array by array, and the host uses it up exactly |
| VertexStream.GuestArrays.SetPointer | wrappers/mesa/src/wrapgl32.c:153-160 | one array gets address, layout and whether it is application memory, and keeps its switch |
| VertexStream.GuestArrays.SetInterleaved | wrappers/mesa/src/wrapgl32.c:6695-6700 | the interleaved array is set and switched on |
| VertexStream.GuestArrays.PushVertexArray | wrappers/mesa/src/wrapgl32.c:313-367 | the slices of all arrays that travel, in order, or an interleaved one alone, which is then switched off |
| VertexStream.ElementThere | qemu-1/hw/mesa/mesapt_mm.c:331-465 | a mirrored element is in the host's block, byte by byte, what the guest has at the address, with the stride and the element size of its own pointer call |
| VertexStream.PlayPointer | qemu-1/hw/mesa/mesapt_mm.c:110-122 | a pointer call that does not stray keeps the two tables together, when it makes a block too |
| VertexStream.PlayDraw | qemu-1/hw/mesa/mesapt_mm.c:1358-1366 | with the stream the guest sends, every element of glDrawArrays is in the cache for every array the guest's table sends |
| VertexStream.PlayIndexed | qemu-1/hw/mesa/mesapt_mm.c:1367-1461 | the same for every element an index list names |
| VertexStream.Run | qemu-1/hw/mesa/mesapt_mm.c:331-465 | over any run of pointer calls, binds, switches, draws and context ends, through guest and host, until a pointer call strays: the host's table stands for the guest's, and after every draw each element drawn is in the cache for each array the guest sends; addresses from the page size on never stray |
| VertexStream.EachServed | qemu-1/hw/mesa/mesapt_mm.c:331-465 | in such a run each draw is served with the guest's table as the calls before it leave it |
| VertexStream.DrawnByte | qemu-1/hw/mesa/mesapt_mm.c:1358-1461 | every byte of every element such a draw reads, for every array the guest sends, is there in the same terms |
| VertexStream.SecondDraw | wrappers/mesa/src/wrapgl32.c:316-320 | two draws after one glInterleavedArrays: the second sends nothing, and its elements are what the guest has by then exactly if these bytes have not changed |
| KeptRegions.HadOnceSnoc | qemu-1/hw/mesa/mglcntx_linux.c:64-69 | a set the simple code had stays one it had |
| KeptRegions.RemovedJustNow | qemu-1/hw/mesa/mglcntx_linux.c:131-138 | right after an unmap the set of before it is the one of just before the last remove |
| KeptRegions.RemapIsFree | qemu-1/hw/mesa/mglcntx_linux.c:108-138 | a mapping taken down and put up again at once costs KVM nothing, and is counted |
| KeptRegions.KeptGuestBufo.RemoveKept | qemu-1/hw/mesa/mglcntx_linux.c:94-100 | KVM has the simple code's set afterwards, and is asked for one removal if a region was standing and for nothing otherwise |
| KeptRegions.KeptGuestBufo.MGLRemoveKeptGuestBufo | qemu-1/hw/mesa/mglcntx_linux.c:94-100 | an explicit drop changes nothing of the simple code's set and makes KVM's equal to it |
| KeptRegions.KeptGuestBufo.MGLRemoveKeptGuestBufoOfBuffer | qemu-1/hw/mesa/mglcntx_linux.c:102-106 | no region of that buffer is kept, one of another buffer stays |
| KeptRegions.KeptGuestBufo.UpdateRegion | qemu-1/hw/mesa/mglcntx_linux.c:108-138 | adds and removes keep the refinement, with or without keeping; with keeping a remove leaves its region standing and KVM is asked for no more than the removal of the one kept before; an add of the kept region asks KVM for nothing and is counted, another add asks for itself after the removal of the kept one; after every add the two sets are equal |
| KeptRegions.KeptGuestBufo.Run | qemu-1/hw/mesa/mglcntx_linux.c:64-69 | over any run each operation asks KVM for just that, KVM is only ever brought to sets the simple code had, ends with its set or the one before its last remove, and has no overlap the simple code never had |
| GuestPlacement.SpillsByOnePage | qemu-1/hw/mesa/mglmapbo.c:217-222 | a window ends at the scan's mark, or a page past it exactly when size and offset leave part of the last page |
| GuestPlacement.WindowHolds | qemu-1/hw/mesa/mglcntx_linux.c:140-160 | the pages KVM maps hold the buffer, and the last of them is needed, if its guest address has the host address's offset in the page |
| GuestPlacement.MarksReached | qemu-1/hw/mesa/mglmapbo.c:204-231 | the scan's bounds are those of some object before, or where the scan begins |
| GuestPlacement.BelowIsApart | qemu-1/hw/mesa/mglmapbo.c:204-231 | an object placed below the low bound has a window apart from every earlier one |
| GuestPlacement.AboveIsApart | qemu-1/hw/mesa/mglmapbo.c:204-231 | one placed at or above the high bound is apart from an earlier one exactly unless that spills into its first page |
| GuestPlacement.ChosenIsApart | qemu-1/hw/mesa/mglmapbo.c:204-231 | an object that gets an address is apart from an earlier one always when it goes below, as wanted or moved, and otherwise exactly unless that one spills into the page of its address |
| GuestPlacement.ChosenIsPlacedApart | qemu-1/hw/mesa/mglmapbo.c:204-231 | the same for all earlier objects at once |
| GuestPlacement.WholePagesFit | qemu-1/hw/mesa/mglmapbo.c:217-222 | sizes that with their offset are whole pages never spill |
| GuestPlacement.SmallBuffersShareAPage | qemu-1/hw/mesa/mglmapbo.c:204-231 | two small buffers of one host page, wherever it lies, are placed in one guest page |
| BufferObjects.MappedBuffers.LookupBufObj | qemu-1/hw/mesa/mglmapbo.c:151-170 | the buffer's object, appended when there is none |
| BufferObjects.MappedBuffers.FreeBufObj | qemu-1/hw/mesa/mglmapbo.c:172-202 | exactly that object goes, and the count is what is left |
| BufferObjects.MappedBuffers.MapBufObjGpa | qemu-1/hw/mesa/mglmapbo.c:204-231 | the address is the one wanted if that lies below the low or from the high bound of the earlier objects on, else right below the low one, else at the high one, as far as there is room; it is apart from each of them exactly when that one is clear of it, and no other object changes |
| BufferObjects.WriteKeeps | qemu-1/hw/mesa/mesapt_mm.c:2436-2446 | a write into one copied mapping leaves every other as the guest left it |
| BufferObjects.FillKeeps | qemu-1/hw/mesa/mesagl_impl.c:140-162 | filling a new mapping disturbs none |
| BufferObjects.CopiedKeeps | qemu-1/hw/mesa/mesapt_mm.c:2433-2446 | a new copied mapping lies in the area, apart from all others and below the mark |
| BufferObjects.PopKeeps | qemu-1/hw/mesa/mesapt_mm.c:2451-2462 | for any order of unmaps the mark stays past every mapping that is left, and these keep their bytes |
| BufferObjects.FlushedAt | qemu-1/hw/mesa/mesagl_impl.c:164-175 | a flush moves exactly the bytes of its range |
| BufferObjects.WholeFlush | qemu-1/hw/mesa/mesagl_impl.c:164-175 | a mapping no flush has touched is flushed whole |
| BufferObjects.EmptyFlush | qemu-1/hw/mesa/mesagl_impl.c:164-175 | a flush does what was asked exactly with a length, or when the bytes behind its offset are the same anyway |
| BufferObjects.StepFollows | qemu-1/hw/mesa/mesagl_impl.c:164-175 | a write or flush on this mapping makes of each byte what the run of steps says, and so does any step on another buffer, which leaves it alone |
| BufferObjects.MappedBuffers.EditOne | qemu-1/hw/mesa/mesapt_mm.c:1863-1912 | what each of map, unmap, write and flush does to its buffer and to the mark; object, mapping and bytes of every other buffer stay as they were |
| BufferObjects.KeptBeside | qemu-1/hw/mesa/mesapt_mm.c:1863-1912 | a standing mapping follows its own steps past one on another buffer |
| BufferObjects.StackBringsMarkBack | qemu-1/hw/mesa/mesapt_mm.c:2433-2462 | buffers mapped and unmapped in stack order, with writes, flushes and KVM mappings in between, leave the mark where it was |
| BufferObjects.MappedBuffers.Map | qemu-1/hw/mesa/mesapt_mm.c:1863-1904 | a mapping starts with the host's bytes if it is filled, lies where the guest's wrapper looks for it, apart from all others, and the mark moves by its aligned size exactly if it is copied; one through KVM has a window apart from each earlier object exactly when that is clear of it |
| BufferObjects.MappedBuffers.MapDirect | qemu-1/hw/mesa/mesapt_mm.c:2440-2442 | a mapping through KVM takes no room in the area, and goes where MapBufObjGpa puts it |
| BufferObjects.MappedBuffers.MapCopied | qemu-1/hw/mesa/mesapt_mm.c:2443-2446 | a copied one takes the bytes behind the mark |
| BufferObjects.MappedBuffers.GuestWrite | qemu-1/hw/mesa/mesapt_mm.c:2436-2446 | the guest's view of that mapping changes, and no other |
| BufferObjects.MappedBuffers.WrFlushBufObj | qemu-1/hw/mesa/mesagl_impl.c:164-175 | the host gets the guest's bytes of the range, only for copied mappings |
| BufferObjects.MappedBuffers.Flush | qemu-1/hw/mesa/mesapt_mm.c:1863-1893 | the flushed range reaches the host, nothing else does, and Apple's form makes flushes explicit |
| BufferObjects.MappedBuffers.Unmap | qemu-1/hw/mesa/mesapt_mm.c:1905-1912 | a write mapping without explicit flush puts exactly the guest's bytes into the host buffer, one with explicit flush puts none; the mark goes back to where the mapping began exactly if it was copied and ended at the mark, and to 0 with the last object |
| BufferObjects.MappedBuffers.Release | qemu-1/hw/mesa/mesapt_mm.c:2451-2462 | the object goes and its bytes with it if they end at the mark, the others stay as they were |
| BufferObjects.MappedBuffers.Edit | qemu-1/hw/mesa/mesapt_mm.c:1863-1893 | any run of writes, flushes, maps and unmaps on any buffers, in any order, as far as the steps are usable, is these steps one after the other; each mapping that stands all along has the bytes written last, and its buffer what the guest had when it was last flushed, or what was mapped; it stops only at a step that is not usable |
| BufferObjects.MappedBuffers.Session | qemu-1/hw/mesa/mesapt_mm.c:1863-1912 | from map to unmap, with any steps on other buffers in between, maps and unmaps included: each byte of the buffer ends as what the guest has if the unmap takes it along, and otherwise as last flushed or as mapped; the unmap takes all of a write mapping that was never flushed, the range of the last flush if flushes are not explicit, nothing if they are |
| BufferObjects.LostByte | qemu-1/hw/mesa/mesapt_mm.c:1863-1912 | two bytes written and the first flushed without the flag: after the unmap the host lacks the second |
| BufferObjects.TopIsReused | qemu-1/hw/mesa/mesapt_mm.c:2433-2462 | of two buffers of 16 bytes the second is given back: the third is where it was, at 33 |
| GlContexts.MesaContexts.RestoreCurrent | qemu-1/hw/mesa/mglcntx_linux.c:565-588 | what is taken back is live, and it is taken back unless the window was replaced |
| GlContexts.MesaContexts.FindContext | qemu-1/hw/mesa/mesagl_frametap.c:567-588 | a context has an entry afterwards unless the table is full of others, nothing else changes, and the table stays sound exactly if the context is live or there is no room |
| GlContexts.MesaContexts.Forget | qemu-1/hw/mesa/mesagl_frametap.c:902-909 | every entry of that context is gone, and no other |
| GlContexts.MesaContexts.DestroyLevel | qemu-1/hw/mesa/mglcntx_linux.c:648-652 | the context is dead, its slot empty and its frametap key gone, every other key still there |
| GlContexts.MesaContexts.DestroyPbufferContext | qemu-1/hw/mesa/mglcntx_linux.c:1264-1267 | the same for a pbuffer's |
| GlContexts.MesaContexts.DestroyLevels | qemu-1/hw/mesa/mglcntx_linux.c:654-660 | all levels from one on are gone, the others untouched |
| GlContexts.MesaContexts.Fill | qemu-1/hw/mesa/mglcntx_linux.c:1159-1160 | a new context in an empty slot is found nowhere else, the frametap table included |
| GlContexts.MesaContexts.CompareAttribArray | qemu-1/hw/mesa/mglcntx_mingw.c:784-803 | the answer is whether the list differs from the one kept, which is then this one; an empty list always differs |
| GlContexts.ListEnds | qemu-1/hw/mesa/mglcntx_mingw.c:784-803 | a list ends behind whole pairs, none of whose names is zero, at a zero |
| GlContexts.SlotsShared | qemu-1/hw/mesa/mglcntx_linux.c:646 | levels below six have slots of their own; others share one exactly if they agree modulo six, 0 and 1 taken as one |
| GlContexts.MesaContexts.ActivateHandler | qemu-1/hw/mesa/mglcntx_mingw.c:805-825 | the latch follows the call unless the guest has not presented yet, and the list goes exactly when an active display is deactivated at once and the settings do not keep it |
| GlContexts.MesaContexts.DeactivateOnce | qemu-1/hw/mesa/mglcntx_mingw.c:846-852 | afterwards no request counts as a repeat, unless the settings keep contexts over a deactivation, and then the same ones as before |
| GlContexts.MesaContexts.CreateContext | qemu-1/hw/mesa/mglcntx_linux.c:687-708 | level 0 is kept or made, also at an address this very call freed, all others go, nothing stays current |
| GlContexts.MesaContexts.DeleteContext | qemu-1/hw/mesa/mglcntx_linux.c:644-664 | exactly the slot of that level is emptied, which below six is its own, or for level 0 all others, and nothing stays current |
| GlContexts.MesaContexts.MakeCurrent | qemu-1/hw/mesa/mglcntx_linux.c:710-741 | the handle of a level makes the context of its slot current, which below six is its own, that of a pbuffer the pbuffer's, and any other handle nothing |
| GlContexts.MesaContexts.CreateAlone | qemu-1/hw/mesa/mglcntx_linux.c:1132-1147 | a repeated list keeps the context, another replaces all, also at an address this very call freed; the list describes level 0 afterwards exactly if the creation succeeds, there is no list, it repeats, or an active display drops it again |
| GlContexts.RepeatOfFailure | qemu-1/hw/mesa/mglcntx_linux.c:1132-1147 | a creation that fails and the same request again, from the start: the second is answered with the missing context |
| GlContexts.MesaContexts.CreateShared | qemu-1/hw/mesa/mglcntx_linux.c:1148-1161 | the parent is the slot before and live, also when the full array moves down and the address of level 1 comes back; level 0 and its list stay |
| GlContexts.MesaContexts.ShiftDown | qemu-1/hw/mesa/mglcntx_linux.c:1150-1158 | level 1 is destroyed and the others move down without being doubled |
| GlContexts.MesaContexts.CreateContextAttribs | qemu-1/hw/mesa/mglcntx_linux.c:1119-1166 | with something to share the first empty slot is filled, or the last one after the others have moved down; without, level 0 is kept for a repeated list and made anew otherwise; both keep every invariant |
| GlContexts.MesaContexts.CreatePbuffer | qemu-1/hw/mesa/mglcntx_linux.c:1219-1258 | the first unused pbuffer gets a context of its own, exactly if there is one and a configuration; what is kept stays sound exactly if it has a width or no context |
| GlContexts.MesaContexts.DestroyPbuffer | qemu-1/hw/mesa/mglcntx_linux.c:1260-1272 | its context is dead and not remembered, and its slot is free |
| GlContexts.MesaContexts.Present | qemu-1/hw/mesa/mesagl_frametap.c:745-764 | what is bound has an entry if there is room; the table stays sound exactly if it is live or the table is full |
| GlContexts.MesaContexts.TmpContextPurge | qemu-1/hw/mesa/mglcntx_linux.c:595-613 | level 0 goes exactly when no level above 1 is there, with its list and what was remembered of it |
| GlContexts.MesaContexts.CloseDisplay | qemu-1/hw/mesa/mglcntx_linux.c:674-676 | what is kept is sound after the display is closed exactly if no context was left |
| GlContexts.MesaContexts.WndRelease | qemu-1/hw/mesa/mglcntx_linux.c:666-685 | the same in terms of what was there before: sound exactly if there was level 0 at most |
| GlContexts.MesaContexts.SetPixelFormat | qemu-1/hw/mesa/mglcntx_linux.c:883-898 | what is kept is sound afterwards exactly if no replaced window was released over a level or a pbuffer |
| GlContexts.MesaContexts.Unload | qemu-1/hw/mesa/mesapt_mm.c:2763-2772 | unloading the library is sound exactly if no library or window was there, or no pbuffer was left and the levels were deleted or not there |
| GlContexts.ReplacedUnderLevel | qemu-1/hw/mesa/mglcntx_linux.c:883-898 | from the start: a shared context and a replaced window leave a slot with a destroyed context |
| GlContexts.UnloadedUnderPbuffer | qemu-1/hw/mesa/mglcntx_linux.c:666-685 | from the start: a pbuffer outlives the display of an unloaded library |
| GlContexts.MesaContexts.RunOne | qemu-1/hw/mesa/mesapt_mm.c:2735-2778 | what each call does to slots, current context, cache and display; it leaves everything sound exactly if a condition on the state before it holds, and the cached list describing level 0 exactly if another does, true of all but failing creations |
| GlContexts.MesaContexts.Run | qemu-1/hw/mesa/mglcntx_linux.c:507-528 | over any run, failing creations included, each call does just that, and the remembered context, the slots and the frametap keys are live and distinct, until a present, a pixel format, an unload or a pbuffer without a width breaks it; the cached list describes level 0 as long as no creation with a list fails |
| FrametapPage.StoreKeeps | qemu-1/hw/mesa/mesagl_frametap.c:719-742 | each of the writer's stores keeps the relation of page, sequence and published frames, and a reader's hold on them |
| FrametapPage.NextKeeps | qemu-1/hw/mesa/mesagl_frametap.h:77-79 | so does each step of the reader |
| FrametapPage.RunKeeps | qemu-1/hw/mesa/mesagl_frametap.h:77-79 | so does any interleaving |
| FrametapPage.SequenceReturns | qemu-1/hw/mesa/mesagl_frametap.c:726-741 | the 32-bit sequence comes back exactly after a multiple of 2^31 publishes |
| FrametapPage.AcceptsExactly | qemu-1/hw/mesa/mesagl_frametap.h:77-79 | a full copy is accepted exactly between two publishes a multiple of 2^31 after it was begun |
| FrametapPage.AcceptedIsOneFrame | qemu-1/hw/mesa/mesagl_frametap.h:77-79 | an accepted copy is, field by field, one published frame, with fewer than 2^31 publishes meanwhile |
| FrametapPage.QuietReadAccepted | qemu-1/hw/mesa/mesagl_frametap.h:77-79 | a reader left alone between publishes accepts |
| FrametapPage.Frametap.FrameHolds | qemu-1/hw/mesa/mesagl_frametap.c:722-738 | field by field what a publish writes; the frame time is the time since the last one, 0 for the first and at most 2^32 - 1 |
| FrametapPage.Frametap.Publish | qemu-1/hw/mesa/mesagl_frametap.c:719-742 | the stores are twelve steps of the machine, and the page holds the frame afterwards, its frame time cut to 32 bits |
| FlightRecorder.MaskIsRemainder | qemu-1/hw/mesa/mesagl_flight.h:81 | masking by a power of two less one is the remainder |
| FlightRecorder.PowFloorIsPowerOfTwo | qemu-1/hw/mesa/mesagl_flight.c:189-190 | the capacity is the largest power of two that is not larger |
| FlightRecorder.RecordHolds | qemu-1/hw/mesa/mesagl_flight.h:79-89 | a recorded event joins the end of the log the ring holds |
| FlightRecorder.TwoParts | qemu-1/hw/mesa/mesagl_flight.c:143-156 | the two parts a flush writes are the end of the log, in order across the wrap |
| FlightRecorder.NothingUnaccounted | qemu-1/hw/mesa/mesagl_flight.c:126-163 | over any run emitted and lost events add up to those recorded before the last flush |
| FlightRecorder.Recorder.constructor | qemu-1/hw/mesa/mesagl_flight.c:176-214 | an empty recorder of that capacity |
| FlightRecorder.Recorder.Record | qemu-1/hw/mesa/mesagl_flight.h:79-89 | the log grows by the event |
| FlightRecorder.Recorder.Flush | qemu-1/hw/mesa/mesagl_flight.c:126-163 | a chunk with exactly the log from its index to the end, and as lost exactly what lies between the last flush and that index |
| FlightRecorder.Recorder.AtExit | qemu-1/hw/mesa/mesagl_flight.c:165-174 | a last flush, after which everything is accounted for |
| TimerTable.IdCarriesSlot | wrappers/fxlib/fxtime.c:179-180 | an id's remainder by sixteen is its slot, and it is zero only for slot 0 at every 4096th count |
| TimerTable.IdsCollide | wrappers/fxlib/fxtime.c:179-180 | two armings of a slot share an id exactly a multiple of 4096 counts apart |
| TimerTable.DeltaIsTrue | wrappers/fxlib/fxtime.c:78-79 | the 32-bit difference is the true one across any wrap |
| TimerTable.HiddenExactly | wrappers/fxlib/fxtime.c:67-79 | of two times within 2^31 ticks the one with the smaller number can keep the other, due one waiting exactly if a wrap lies between them |
| TimerTable.OverdueTimerWaits | wrappers/fxlib/fxtime.c:65-79 | two timers set before a wrap: the poll answers that it is too early while the first is overdue |
| TimerTable.OneShotFiresOnce | wrappers/fxlib/fxtime.c:78-112 | two firings of one arming mean a periodic timer, in the order of their ordinals |
| TimerTable.AdvanceKeeps | wrappers/fxlib/fxtime.c:81-82 | the next trigger time is on the grid of set time and delays |
| TimerTable.FiringIsGood | wrappers/fxlib/fxtime.c:78-82 | a firing is due, and at set time plus its ordinal times the delay |
| TimerTable.Timers.NextId | wrappers/fxlib/fxtime.c:179-180 | a non-zero id for the slot |
| TimerTable.Timers.Arm | wrappers/fxlib/fxtime.c:179-191 | a free slot takes the timer under an id of its own, due a delay from now; no other slot changes |
| TimerTable.Timers.SetEvent | wrappers/fxlib/fxtime.c:156-198 | an id exactly for a valid delay and a free slot; its remainder is the first free slot, which takes the timer, and no other changes |
| TimerTable.Timers.KillEvent | wrappers/fxlib/fxtime.c:200-219 | exactly the timer with that id is freed |
| TimerTable.Timers.Select | wrappers/fxlib/fxtime.c:67-76 | the first slot with the least trigger time |
| TimerTable.Timers.WaitsExactly | wrappers/fxlib/fxtime.c:67-79 | the slot the poll selects can keep another one waiting that is due exactly if the two are due on different sides of a wrap |
| TimerTable.Timers.Fire | wrappers/fxlib/fxtime.c:81-111 | one firing of the slot's arming is logged, a periodic timer moves on by its delay, a one-shot is freed or waits for its callback |
| TimerTable.Timers.Poll | wrappers/fxlib/fxtime.c:65-112 | what fires is the first due slot with the least trigger time, and nothing else changes; it is too early exactly when that slot is not due, and then nothing changes |
| TimerTable.Timers.Return | wrappers/fxlib/fxtime.c:104-111 | the slot is freed exactly for a one-shot whose arming is a multiple of 4096 counts from the callback's |
| TimerTable.Timers.Run | wrappers/fxlib/fxtime.c:65-113 | any interleaving is its calls, polls and returns one after the other, each with its effect on slots, ids and log; no arming of a one-shot fires twice, and every firing was due and on its grid |
| VsyncPacing.NoEarlierThan | qemu-1/hw/mesa/mglcntx_linux.c:791-809 | a frame returns no earlier than the frame times of all before it after the first call, also when the interval changes |
| VsyncPacing.SecondOfFrames | qemu-1/hw/mesa/mglcntx_linux.c:798 | as many frames as the rate has in a second take one second an interval, to less than a nanosecond a frame |
| VsyncPacing.DeadlinesApart | qemu-1/hw/mesa/mglcntx_linux.c:791-809 | deadlines are at least the frame times between them apart |
| VsyncPacing.Spacing | qemu-1/hw/mesa/mglcntx_linux.c:791-809 | any n consecutive frames after a punctual one take longer than the n - 1 frame times between |
| VsyncPacing.OversleptFrameIsFollowedAtOnce | qemu-1/hw/mesa/mglcntx_linux.c:791-809 | a frame can be followed at once, with any frame time, exactly if its sleep ended a frame time late |
| VsyncPacing.OneGrid | qemu-1/hw/mesa/mglcntx_linux.c:791-809 | between resets deadlines stay on one grid without drift |
| VsyncPacing.Pacer.Pace | qemu-1/hw/mesa/mglcntx_linux.c:791-809 | a call waits for the deadline or starts the grid anew, and pacing that is off forgets it |
| AcpiCounter.AdvancesByElapsed | wrappers/fxlib/fxhook.c:93-100 | the running value advances by the true ticks exactly if fewer than 2^24 passed |
| AcpiCounter.NoTickLost | wrappers/fxlib/fxhook.c:93-100 | across any number of reads and wraps no tick is lost or counted twice |
| AcpiCounter.SecondsCount | wrappers/fxlib/fxhook.c:101-102 | while the product fits, 3579545 ticks advance the converted value by one second of the host's frequency |
| AcpiCounter.NeverGoesBack | wrappers/fxlib/fxhook.c:101-102 | the converted value never decreases while the product fits |
| AcpiCounter.GoesBackOnOverflow | wrappers/fxlib/fxhook.c:101-102 | past the end of the product's range it does |
| AcpiCounter.GoesBackExactly | wrappers/fxlib/fxhook.c:101-102 | until the range is nearly used up twice, the converted value does not decrease exactly while the product fits |
| AcpiCounter.TckRef.ElapsedTick | wrappers/fxlib/fxhook.c:81-106 | the running value takes the reading, and the count follows it without going back exactly while the product fits |
| Md5.NewLenIsLeast | wrappers/fxlib/md5.c:65 | the padded length is the least valid one |
| Md5.PaddingIsRfc | wrappers/fxlib/md5.c:65-73 | the buffer is the standard's padded message exactly below 2^29 bytes |
| Md5.WordsAgree | wrappers/fxlib/md5.c:121-133 | the formulas for the word index give the standard's lists |
| Md5.ShiftsAgree | wrappers/fxlib/md5.c:27-30 | the table of shifts gives the standard's |
| Md5.TablesAgree | wrappers/fxlib/md5.c:33-49 | the loop's table of constants is the standard's |
| Md5.FunctionsAgree | wrappers/fxlib/md5.c:121-133 | the loop's functions are F, G, H and I |
| Md5.FChooses | wrappers/fxlib/md5.c:121-133 | F takes in every bit the second word where the first is set and the third elsewhere |
| Md5.GChooses | wrappers/fxlib/md5.c:121-133 | G chooses by the third word |
| Md5.HAndI | wrappers/fxlib/md5.c:121-133 | H is the parity of the three, I differs from the second where the first is set or the third is not |
| Md5.SumsAreModular | wrappers/fxlib/md5.c:138-143 | sums are those of the integers modulo 2^32 |
| Md5.StatesAdd | wrappers/fxlib/md5.c:151-154 | the registers of a block are added to the state one by one, modulo 2^32 |
| Md5.RotationsAreArithmetic | wrappers/fxlib/md5.c:12 | for each of the sixteen shifts rotating is multiplying modulo 2^32 and adding what was pushed out |
| Md5.WordIsNumber | wrappers/fxlib/md5.c:81 | a word of a block is the number whose bytes stand there, low-order first |
| Md5.BlockHasNumber | wrappers/fxlib/md5.c:81 | word j of a block is the number four times j behind its start |
| Md5.StepIsOperation | wrappers/fxlib/md5.c:138-143 | a turn of the loop is one operation of the standard |
| Md5.StepsAgree | wrappers/fxlib/md5.c:138-143 | rotating the variables is taking the registers in the order ABCD, DABC, CDAB, BCDA |
| Md5.Digest.Prepare | wrappers/fxlib/md5.c:65-73 | the buffer holds the padded message |
| Md5.Digest.Chunk | wrappers/fxlib/md5.c:91-156 | a block adds the standard's 64 operations to the state |
| Md5.Digest.Blocks | wrappers/fxlib/md5.c:78-158 | the loop takes in every block of the buffer |
| Md5.Digest.Md5 | wrappers/fxlib/md5.c:18-161 | below 2^29 bytes the state is the digest of RFC 1321, sections 3.1 to 3.4 |

## Left out

- GlideFifo.GlideLink.GuestCall: a payload that does not fit is not written, and nothing is said of what the source's write past the output page does.
- GlideFifo.GlideLink.Run: argument sizes are not reduced modulo 2^32, so that one past that overruns here; once the host has left its memory nothing more is said.
- GlideHost.FogStep: a spoilt count of 2^31 bytes or more takes the source's cursor back over what the host has read; here it only leaves the area, and nothing is said of a call that touches it then.
- GlideFifo.GlideLink.Trap: what the API writes to the output page, and the frame buffer lock, swap and vsync policies that change an argument word before a call, are not modelled.
- GlideAbi.ArgCountsAgree: the symbol table is a function of the number; the names in front of the sign are not part of it.
- VertexCache.MesaArrays.PushVertexArray: products are not reduced modulo 2^32.
- VertexStream.Run: a run ends at a pointer call that strays; the wrapper's test for unreadable memory, which switches an array off, is a call like any other, ranges given by the caller and single elements are not among the calls, and the OpenGL command FIFO that carries the stream is not part of this model.
- VertexCache.MesaArrays.LookupVertArry: address ranges that wrap at 2^32 are excluded; blocks are values of a field, so that writing one in place is an update of that field.
- VertexCache.MesaArrays.Push: what a draw writes through an array that points outside its block is not modelled.
- VertexCache.MesaArrays.DrawElements: index lists are given as numbers, not as bytes of their width; indices of 2^31 and more are not turned into negative numbers.
- GuestPlacement.ChosenIsApart: sizes are not reduced modulo 2^32.
- BufferObjects.MappedBuffers.Map: the list is a field of values; the area does not overflow, and a copied mapping is not mapped again through KVM.
- BufferObjects.MappedBuffers.Edit: a run ends at the first step that is not usable; nothing is said there of mappings the steps themselves begin, which `Session` is for.
- BufferObjects.MappedBuffers.Unmap: whether a mapping goes through KVM is the same at map and unmap.
- BufferObjects.MappedBuffers.WrFlushBufObj: a flush does not reach past its mapping, where the source copies what lies there after a warning.
- GlContexts.MesaContexts.WndRelease: drawables, visuals and gamma are left out.
- GlContexts.MesaContexts.Run: Glide's own contexts are outside the table of live ones; a creation for which the host would have to give the address of a live context is passed over.
- FrametapPage.AcceptedIsOneFrame: memory ordering below the write barriers is assumed.
- FlightRecorder.Recorder.Flush: chunk headers other than index and loss, the call counts and file errors are left out; the 64-bit event count does not wrap.
- TimerTable.Timers.Poll: thread start and stop, critical sections of synchronous kills and the sleep between polls are left out; the counter is not reduced modulo 2^32, which no id shows.
- VsyncPacing.Pacer.Pace: frame times of zero and negative swap intervals are excluded.
- Md5.Digest.Md5: from 2^31 bytes on the source's signed length and offset overflow, where the model goes on; the standard's sine table is a list of its values, as its definition needs real arithmetic; the text form of the digest is left out.
- Glide 2.11 emulation, Glide 3 layouts, frame buffer copies and file pushing: not modelled.
- GL, GLX and KVM calls: effects on the state kept here, nothing more.
- Letterbox, render scaler, pixel formats, cursors, fonts, extension tables, diagnostics: mostly tables and drawing, with no state across calls worth the space.
