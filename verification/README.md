# Affogato: a verified model of the guest machine

This project models the stateful core of the Affogato Wii U emulator in Dafny and proves what that core promises:
the guest memory, the cooperative guest threads and their message queues, the RPX loader from relocation to the
choice of the guest heap, the default heaps, the FS client list, and the GX2 texture state from descriptor to draw
snapshot. `dafny verify dfyconfig.toml` checks all of it.

The modules build on each other.

- **Guest memory.** `MemoryImage` is the specification: a map from guest addresses to backing cells, where an alias
  makes two addresses share a cell, and byte-wise loads and stores over that map. `PageGenerations` adds the write
  counter of every page. The class `GuestMemory` has the source's fields, a flat array, sparse regions, aliases and
  counters, and each accessor is proved equal to byte-wise access on the map. `CodeCoherence` proves over runs that an
  unchanged page generation means unchanged code. All other modules state their effect on guest memory over this map.
- **Linking and loading.** `BranchEncoding` holds the decoder and interpreter rules for b, bl, addis, ori, mtctr and
  bcctr. `Trampolines` is the two-ended allocator, `RpxLinker` gives the relocation loop as a function of image,
  trampolines and slots and the class that computes it, `Placement` and
  `HleDispatcherModel` put blocks and data exports into guest memory, `HeapGap` chooses the guest heap, and
  `RpxLoader.LoadRpx` joins them. `LinkedExecution` runs the result: a relocated branch fetched from guest memory
  arrives at S + A. `ImportCalls` says what S is: a call of an import arrives where the dispatcher finds its name.
  `LostSlot` is an input on which the load fails.
- **Threads.** `GuestThreads` and `ThreadCalls` give every scheduler decision and every handler as a function of the
  machine state; the class `GuestScheduler` has the source's loops and is proved to compute them. `ThreadInvariants`,
  `ThreadClock`, `ThreadRuns`, `WakeUps` and `ThreadTime` prove the invariants over all runs; `HandOver`, `SleepRuns` and
  `CallReturns` say who gets control, how long a sleep lasts and what a call returns. `GuestContext` and `MessageRing`
  carry the two abstractions the scheduler uses down to bytes in guest memory: a saved context is the register set, and a
  ring of slots is the bounded deque. `ThreadObjects`, `RingExtents`, `ThreadMemory`, `SwitchMemory` and
  `MachineMemory` join the two levels: over any run the stores of each step leave the scheduler's next state in guest
  memory, so that context isolation and the wake-up theorem hold of the bytes there.
- **Heaps.** `FrameHeap`, `ExpandedHeap` and `DefaultHeaps` model the three allocators over guest memory;
  `AllocationSafety` follows every block from the load on. `FsClients` is the circular client list.
- **GX2.** `RegisterState` is the register shadow with its per-draw vectors, `LastWrites` says that every slot holds its
  last write, and `TextureResource` is the texture encoder, the binding command stream and the decoder.

`Bits`, `GuestObjects`, `GuestAccess` and `Extents` hold the arithmetic of bits and alignments and the reading and
writing of objects in guest memory.

A method models the imperative code and its contract equates its effect with a specification function; the lemmas
beside it say what that function means. Errors that the source throws are outcomes or `ok == false`; a contract
says when they arise and, where the source validates before it writes, that nothing changed. Guest words are naturals
below 2^32, with each wrap-around written out; texture words are 32-bit vectors.

Four properties fail in the code as it is. Each has lemmas with an input on which it fails and with its exact
condition.

- A byte write through an alias marks the page of the alias and not its backing page, so the reader's generation does
  not move: `AliasedWrite8BreaksCoherence` is the counterexample, `Write8AdvancesIffNotAliased` the condition.
- A REL24 branch with AA set in direct range keeps AA and jumps to the displacement: `LinkAbsoluteBranch` and
  `AbsoluteBranchMisses` are an accepted input that misses; `PatchedBranchTarget` says that a branch arrives if and
  only if AA is clear or the site is zero.
- The encoder accepts textures that the registers cannot hold: `NarrowPitchIsLost`, `ZeroWidthIsLost`,
  `FlatDepthIsLost` and `SampleCountReplacesLevel` are inputs; `TextureSurvives` says exactly which textures survive.
- The load can reject a branch although a reserved slot is free and in its reach: `LostSlot.RejectLongFile` is a file
  on which it does. `RefusedIffPassed` and `BranchRejectedIff` are the condition: a branch out of reach is rejected if
  and only if AA is set or an earlier branch made the cursors pass every slot that could serve it.

Assumptions, stated once: the core is fresh; flat memory has at most 2^32 bytes; section contents are already inflated;
OSThread objects are disjoint and freshly created; queue headers, heap headers and the OSThread objects of threads that
do not run change only through the modelled calls; `dispatch` is entered with CIA equal to the import address.

## Model

| member | source | states |
|---|---|---|
| MemoryImage.StoredCell | src/cpu/espresso/guest_memory.hpp:247-269 | After a byte-wise store every cell holds the last byte of the span that maps to it, and every other cell what it held: the meaning of a store even where a span covers a cell and its alias |
| MemoryImage.ReadBack | src/cpu/espresso/guest_memory.hpp:210-269 | A span whose addresses have distinct cells reads back exactly what was stored |
| MemoryImage.StoreFrame | src/cpu/espresso/guest_memory.hpp:247-269 | A store changes no byte of a range that shares no cell with it |
| MemoryImage.StoreConcat | src/cpu/espresso/guest_memory.hpp:247-269 | Storing a sequence is storing its parts one after the other, so the segment loop is the byte loop |
| MemoryImage.OneObject | src/cpu/espresso/guest_memory.hpp:683-743 | At most one mapped object contains an address, so the search order of the slow path does not matter |
| MemoryImage.SharedCellResolves | src/cpu/espresso/guest_memory.hpp:600-611 | Addresses that share a cell resolve to the same address |
| MemoryImage.AliasKeepsOffset | src/cpu/espresso/guest_memory.hpp:166-198 | Resolving an alias keeps the offset in the page and maps page starts to page starts |
| MemoryImage.ShortSpansInjective | src/cpu/espresso/guest_memory.hpp:166-198 | No span of up to a page, across any region and alias boundary, meets a cell twice |
| MemoryImage.BytesRoundTrip | src/cpu/espresso/guest_memory.hpp:388-490 | The big-endian bytes of a value give back the value modulo the width |
| MemoryImage.ScalarReadBack | src/cpu/espresso/guest_memory.hpp:310-490 | A 16-, 32- or 64-bit write reads back anywhere in mapped memory, across region and alias boundaries |
| MemoryImage.AliasedWriteSeen | src/cpu/espresso/guest_memory.hpp:166-198 | A byte written through an alias is seen at its flat address, and the other way round |
| MemoryImage.FindAlias | src/cpu/espresso/guest_memory.hpp:600-611 | The first alias that contains an address, or none |
| PageGenerations.MarkedPagesAdvance | src/cpu/espresso/guest_memory.hpp:573-598 | No counter goes down; the counter of every backing page in the marked span goes up |
| PageGenerations.MarkedExactly | src/cpu/espresso/guest_memory.hpp:573-598 | Every counter goes up by exactly the number of marked pages that it backs; all others stay |
| PageGenerations.MarkWrittenAdvances | src/cpu/espresso/guest_memory.hpp:573-598 | Every byte under a marked span lies on a backing page whose counter went up, across the wrap check and alias pages |
| GuestMemoryModel.GuestMemory.constructor | src/cpu/espresso/guest_memory.hpp:57-64 | Fresh memory is all zero, without regions, aliases or written pages |
| GuestMemoryModel.GuestMemory.MapRegion | src/cpu/espresso/guest_memory.hpp:138-162 | Succeeds exactly when the nonempty range fits and meets no mapped object; adds a zeroed region, otherwise changes nothing |
| GuestMemoryModel.GuestMemory.MapAlias | src/cpu/espresso/guest_memory.hpp:166-198 | Succeeds exactly for a page-aligned, disjoint alias of flat memory, or one already there; the second overlap test of the source never fires |
| GuestMemoryModel.GuestMemory.StorageFrom | src/cpu/espresso/guest_memory.hpp:683-743 | The segment found starts at the cell of the address and stays contiguous on the map for its whole length |
| GuestMemoryModel.GuestMemory.ValidateAccess | src/cpu/espresso/guest_memory.hpp:624-681 | True exactly when every byte of the range is mapped, whatever segments it spans |
| GuestMemoryModel.GuestMemory.LoadScalar | src/cpu/espresso/guest_memory.hpp:200-386 | Fails exactly when a byte is unmapped; the flat fast path and the segmented path both give the big-endian value of the mapped bytes |
| GuestMemoryModel.GuestMemory.StoreScalar | src/cpu/espresso/guest_memory.hpp:388-490 | All or nothing: either the mapped cells hold the big-endian bytes and the pages are marked, or nothing changed |
| GuestMemoryModel.GuestMemory.Write8 | src/cpu/espresso/guest_memory.hpp:230-244 | All or nothing; the page marked is that of the unresolved address |
| GuestMemoryModel.GuestMemory.ReadBytes | src/cpu/espresso/guest_memory.hpp:210-228 | Succeeds exactly on an empty or mapped range and returns its bytes in address order |
| GuestMemoryModel.GuestMemory.WriteBytes | src/cpu/espresso/guest_memory.hpp:247-269 | All or nothing: equals the byte-wise store on the map; the pages of the span are marked |
| GuestMemoryModel.GuestMemory.FillBytes | src/cpu/espresso/guest_memory.hpp:283-307 | All or nothing: equals the byte-wise store of one value; a zero length is accepted anywhere |
| GuestMemoryModel.GuestMemory.TransferBytes | src/cpu/espresso/guest_memory.hpp:271-281 | Copies the bytes the source range held before the call, also when the ranges overlap; needs both ranges mapped; marks the pages of the destination |
| GuestMemoryModel.GuestMemory.MarkPageWritten | src/cpu/espresso/guest_memory.hpp:561-571 | Exactly one counter advances, by one |
| GuestMemoryModel.GuestMemory.MarkPagesWritten | src/cpu/espresso/guest_memory.hpp:573-598 | The counters after the page loop are those of the specification; no byte changes |
| GuestMemoryModel.GuestMemory.ResolveAlias | src/cpu/espresso/guest_memory.hpp:600-611 | The flat address behind an alias, or the address itself |
| GuestMemoryModel.GuestMemory.PageWriteGeneration | src/cpu/espresso/guest_memory.hpp:115-126 | The counter of the backing page of an address |
| GuestMemoryModel.FlatTarget | src/cpu/espresso/guest_memory.hpp:166-198 | A flat range never overlaps an alias, so rejecting alias targets that overlap aliases is redundant |
| CodeCoherence.UnchangedGenerationUnchangedPage | src/cpu/espresso/guest_memory.hpp:115-126 | Over any run of writes, fills and copies without byte writes through aliases, an unchanged page generation means that no byte of the backing page changed, seen from any address |
| CodeCoherence.SharedCellSharesCounter | src/cpu/espresso/guest_memory.hpp:115-126 | Addresses that share a cell consult the same counter |
| CodeCoherence.Write8AdvancesIffNotAliased | src/cpu/espresso/guest_memory.hpp:230-244 | A byte write advances the generation of the written byte if and only if its address is not in an alias |
| CodeCoherence.AliasedWrite8BreaksCoherence | src/cpu/espresso/guest_memory.hpp:230-244 | A concrete byte write through an alias changes flat memory while the generation of its page stays put |
| BranchEncoding.SignExtendMeans | src/cpu/espresso/decoder.cpp:8-26 | The xor-subtract form is two's-complement sign extension at every width |
| BranchEncoding.DecodePatched | src/cpu/espresso/rpx_loader.cpp:733-746 | The patched word keeps primary opcode, AA and LK, and its displacement field decodes to the displacement |
| BranchEncoding.RangeExact | src/cpu/espresso/rpx_loader.cpp:692-731 | The REL24 test accepts exactly the displacements that some branch word decodes to |
| BranchEncoding.PatchedBranchTarget | src/cpu/espresso/decoder.cpp:363-368 | A patched b or bl reaches site plus displacement if and only if AA is clear or the site is zero |
| BranchEncoding.TrampolineDecodes | src/cpu/espresso/rpx_loader.cpp:297-314 | The four trampoline words decode to lis, ori, mtctr and bctr with the halves of the target |
| BranchEncoding.TrampolineJumps | src/cpu/espresso/interpreter.cpp:5299-5351 | Running the four instructions sets r11 and CTR to the target and jumps there; nothing else changes |
| RpxImage.CheckSectionsDisjoint | src/cpu/espresso/rpx_loader.cpp:931-958 | True exactly when no two nonempty sections meet |
| RpxImage.AnySectionOverlaps | src/cpu/espresso/rpx_loader.cpp:220-241 | True exactly when some nonempty section meets the range |
| RpxImage.DisjointMeans | src/cpu/espresso/rpx_loader.cpp:931-958 | Sections pass the pairwise test if and only if no address lies in two of them |
| RpxImage.FreeMeans | src/cpu/espresso/rpx_loader.cpp:220-241 | A nonempty range passes the overlap test if and only if no address of it lies in a section |
| Trampolines.CheckSlot | src/cpu/espresso/rpx_loader.cpp:220-241 | True exactly when the slot fits the address space and is clear of both windows, all sections and all trampolines |
| Trampolines.AvailableMeans | src/cpu/espresso/rpx_loader.cpp:220-241 | A slot is available if and only if its 16 addresses exist and lie in no window, no section and no trampoline |
| Trampolines.FindText | src/cpu/espresso/rpx_loader.cpp:106-126 | The smallest range that contains every text section, or none without text |
| Trampolines.ReservedMeans | src/cpu/espresso/rpx_loader.cpp:128-154 | The reserved slots are exactly the aligned ones of the FILEINFO reservation on either side of the text, and none if the reservation does not contain it |
| Trampolines.TrampolineAllocator.constructor | src/cpu/espresso/rpx_loader.cpp:102-155 | The allocator starts with exactly the slots that FILEINFO reserves beside the text |
| Trampolines.TrampolineAllocator.ScanAfterText | src/cpu/espresso/rpx_loader.cpp:257-273 | The loop computes TakeAbove: it hands out the first free slot above the text, in reach, and stops just behind it; without one no slot is free before the first one out of reach |
| Trampolines.TrampolineAllocator.ScanBeforeText | src/cpu/espresso/rpx_loader.cpp:275-290 | The same below the text, downwards |
| Trampolines.TrampolineAllocator.Allocate | src/cpu/espresso/rpx_loader.cpp:243-295 | Computes Take. A slot handed out is 16-aligned, inside the reservation, in REL24 reach of its site, free, and the nearest one on its side, and the cursor stops just past it; it is refused exactly when no slot is free on the way to the first one out of reach, on either side |
| Trampolines.TakeMeans | src/cpu/espresso/rpx_loader.cpp:243-295 | What the two scans do to the cursors and when they refuse, for every branch and every state of the cursors |
| Trampolines.RefusedIffNoneServes | src/cpu/espresso/rpx_loader.cpp:243-295 | An aligned branch in the text is refused if and only if no remaining reserved slot in REL24 reach of it is free |
| Trampolines.RefusedIffPassed | src/cpu/espresso/rpx_loader.cpp:243-295 | It is refused, at any point of a run, if and only if every reserved slot that is free and in its reach lies on the text side of its cursor |
| Trampolines.PassedSlotsAreLost | src/cpu/espresso/rpx_loader.cpp:256-290 | Exactly the slots no scan has passed remain for later branches |
| LostSlot.CallsStop | src/cpu/espresso/rpx_loader.cpp:243-295 | An input on which a slot is lost: two calls in a text of 32 MiB; the first passes the slot behind the text, out of its reach, and takes the one before it; the second is refused although the slot behind the text is reserved, free and in its reach |
| LostSlot.RejectLongFile | src/cpu/espresso/rpx_loader.cpp:930-1144 | The load rejects that file with a bad relocation, at its second call, in that state |
| RpxLinker.RpxLinker.PatchRelative24 | src/cpu/espresso/rpx_loader.cpp:681-747 | The REL24 case as a function of image, trampolines and slots: rejected exactly if unaligned, or out of reach with AA set or with no free slot on the way to the first one out of reach; otherwise only the four bytes change and lead to S+A; a branch in reach leaves trampolines and slots alone, one out of reach takes the nearest free slot and moves the cursor just past it |
| RpxLinker.RpxLinker.Apply | src/cpu/espresso/rpx_loader.cpp:598-747 | One entry computes Applied: accepted, it changes only its own bytes and they encode S+A for its kind, and trampolines and slots change only for a branch out of reach; rejected, nothing changes |
| RpxLinker.AppliedMeans | src/cpu/espresso/rpx_loader.cpp:598-747 | An entry is rejected exactly for the stated reasons, and an accepted one has exactly the stated effect on image, trampolines and slots |
| RpxLinker.RpxLinker.ApplyRelocations | src/cpu/espresso/rpx_loader.cpp:448-764 | Entries in order compute LinkedBy; it stops exactly at an entry that is rejected in the state to which the entries before it lead |
| RpxLinker.LinkFails | src/cpu/espresso/rpx_loader.cpp:448-764 | A list of entries cannot be linked if and only if some entry is rejected in the state to which the entries before it lead |
| RpxLinker.LinkedMeans | src/cpu/espresso/rpx_loader.cpp:598-747 | After any run of entries every entry that no later one patches over is encoded in the image, given the bytes it found; bytes that no entry covers are untouched |
| RpxLinker.FirstFindsFile | src/cpu/espresso/rpx_loader.cpp:681-690 | An entry that no earlier one patches over finds the bytes of the file |
| RpxLinker.RpxLinker.constructor | src/cpu/espresso/rpx_loader.cpp:448-456 | Linking starts with the sections as loaded, no trampoline, and exactly the slots that FILEINFO reserves beside the text |
| RpxLinker.PlainRelocated | src/cpu/espresso/rpx_loader.cpp:640-680 | The word and half-word kinds leave the word, the low, the high and the adjusted high half of S+A |
| RpxLinker.AddedTrampoline | src/cpu/espresso/rpx_loader.cpp:716-731 | A slot that is available extends the trampolines by one that is aligned, reserved and clear of everything before it |
| Placement.MapBlock | src/cpu/espresso/rpx_loader.cpp:994-1030 | The sparse part of a block in a free place can always be mapped: the internal mapping call never collides |
| Placement.PlaceBlock | src/cpu/espresso/rpx_loader.cpp:994-1052 | A section or trampoline is written across flat and sparse backing, reads back, and disturbs no block placed before |
| HleDispatcherModel.HleDispatcher.constructor | src/cpu/espresso/hle_dispatcher.cpp:12-32 | The dispatcher starts empty with the default windows |
| HleDispatcherModel.HleDispatcher.ConfigureGuestAddressBase | src/cpu/espresso/hle_dispatcher.cpp:12-32 | Accepted exactly for an aligned base that fits while nothing is bound; moves both windows, otherwise changes nothing |
| HleDispatcherModel.HleDispatcher.BindImport | src/cpu/espresso/hle_dispatcher.cpp:77-96 | A name keeps its address; a new name gets the next slot of the window and no other binding changes; fails exactly when the window is full |
| HleDispatcherModel.HleDispatcher.RegisterData | src/cpu/espresso/hle_dispatcher.cpp:52-75 | Accepted exactly for a nonempty, power-of-two aligned export under an unused name |
| HleDispatcherModel.HleDispatcher.BindDataImport | src/cpu/espresso/hle_dispatcher.cpp:98-140 | A registered export is placed at the next aligned address of the window; mapping is never refused and all exports bound before keep their bytes; fails exactly when the window is full |
| HleDispatcherModel.HleDispatcher.PlaceExport | src/cpu/espresso/hle_dispatcher.cpp:115-139 | Where a first binding goes and when the window is exhausted |
| HleDispatcherModel.InitialiseExport | src/cpu/espresso/hle_dispatcher.cpp:124-137 | Mapping, zero filling and initialising succeed in a free place and leave the initial bytes in memory |
| HleDispatcherModel.FindWindow | src/cpu/espresso/rpx_loader.cpp:179-217 | The downward search finds the highest aligned free pair of windows under the limit, or there is none |
| HleDispatcherModel.RelocateHleRangesIfNeeded | src/cpu/espresso/rpx_loader.cpp:166-218 | The windows stay if clear; otherwise they move to the highest free place, or stay when no place is free |
| HleDispatcherModel.CheckWindows | src/cpu/espresso/rpx_loader.cpp:962-987 | True exactly when no section meets either window |
| HleDispatcherModel.BestWindowIsClear | src/cpu/espresso/rpx_loader.cpp:166-218 | A window found by the search passes the check that follows |
| HeapGap.AddOccupiedMeans | src/cpu/espresso/rpx_loader.cpp:1059-1086 | Clipping an occupied range to the heap window loses nothing: clear of the clipped ranges is clear of the blocks |
| HeapGap.SortRanges | src/cpu/espresso/rpx_loader.cpp:1059-1087 | The ranges in order, as a multiset unchanged |
| HeapGap.PreferredGap | src/cpu/espresso/rpx_loader.cpp:1101-1126 | The longest aligned gap that starts at the first page above the image, when that address is free |
| HeapGap.Sweep | src/cpu/espresso/rpx_loader.cpp:1128-1137 | The fallback finds a gap that is free, no free aligned gap is longer and none as long starts lower, even when occupied ranges overlap or nest |
| HeapGap.ChooseGap | src/cpu/espresso/rpx_loader.cpp:1090-1137 | The chosen gap is aligned, inside the window and clear; the gap after the image is taken exactly when there is one, else it is the lowest of the longest gaps |
| RpxLoader.BindSymbol | src/cpu/espresso/rpx_loader.cpp:545-582 | Objects bind to their data export, all others to a function import; fails exactly on a full window |
| RpxLoader.ResolveSymbol | src/cpu/espresso/rpx_loader.cpp:521-597 | The value to relocate with, for every kind of symbol: a function import the address at which the dispatcher finds its name, an object the place of its export, every other import its slot; the slot is filled with the bound address; bindings made before stay |
| RpxLoader.LinkEntries | src/cpu/espresso/rpx_loader.cpp:448-764 | The relocation loop, entry by entry: it passes over empty sections, binds the symbol, fills the import slot and patches. It completes, stops at a symbol it cannot resolve or stops at a rejected entry, each exactly when the entries before it are resolved and lead to a state in which that happens |
| RpxLoader.EndsExclude | src/cpu/espresso/rpx_loader.cpp:448-764 | These three ends exclude each other: for final bindings there is at most one of them |
| RpxLoader.RelocationsStay | src/cpu/espresso/rpx_loader.cpp:521-605 | Binding further imports changes none of the relocations resolved before |
| RpxLoader.RelocatedMeaning | src/cpu/espresso/rpx_loader.cpp:521-605 | What the relocations are, in terms of the dispatcher: the own relocation of every entry that takes part has the value (S + A) mod 2^32, where a function import has as S the address at which the dispatcher finds its name, an object the place of its export, every other import its slot; slots are filled with the bound address; in order, and there are no others |
| RpxLoader.PlaceAll | src/cpu/espresso/rpx_loader.cpp:994-1052 | Every nonempty block is in memory and reads back; the image top is the end of the highest flat part |
| RpxLoader.ImageTopMeans | src/cpu/espresso/rpx_loader.cpp:994-1052 | The image top lies just above the highest byte of a block in flat memory |
| RpxLoader.AddBlocks | src/cpu/espresso/rpx_loader.cpp:1059-1086 | An interval is clear of the collected ranges exactly when it is clear of the blocks |
| RpxLoader.PlaceHeap | src/cpu/espresso/rpx_loader.cpp:1053-1144 | The configured heap is clear of sections, trampolines and both windows; it is the longest one at the first page above the image, or without one the lowest of the longest anywhere |
| RpxLoader.ImageApart | src/cpu/espresso/rpx_loader.cpp:930-1052 | Data exports, sections and trampolines are pairwise disjoint once the loader's checks passed |
| RpxLoader.LinkImage | src/cpu/espresso/rpx_loader.cpp:989-990 | Linking with the windows in place, from the reserved slots: the image is the one to which all entries lead, or the load stops exactly at the entry that cannot be resolved or applied |
| RpxLoader.CompleteMeans | src/cpu/espresso/rpx_loader.cpp:989-990 | A completely linked image: exact relocations, entries encoded, other bytes untouched, every trampoline placed inside the FILEINFO reservation |
| RpxLoader.BranchRejectedIff | src/cpu/espresso/rpx_loader.cpp:681-747 | In any state of a load an aligned branch in the text, out of reach of S+A, is rejected if and only if AA is set or every reserved slot that is free and in its reach was passed |
| RpxLoader.RejectedBranch | src/cpu/espresso/rpx_loader.cpp:681-747 | Why the load stopped at an aligned branch in the text: S+A is out of reach, and AA is set or every reserved slot that is free and in its reach was passed |
| RpxLoader.CheckImage | src/cpu/espresso/rpx_loader.cpp:930-987 | The checks before binding: exactly disjoint sections and clear windows pass |
| RpxLoader.LoadRpx | src/cpu/espresso/rpx_loader.cpp:930-1144 | Load fidelity: every section and trampoline reads back as linked, every bound export holds its initial bytes, every trampoline lies in the FILEINFO reservation, no mapping or write is refused, the heap choice holds; the relocations are those of the entries, in terms of the imports and exports bound; each of the four rejections if and only if its reason holds, an entry that cannot be applied being one that is rejected in the state to which the entries before it lead |
| LinkedExecution.TrampolineRuns | src/cpu/espresso/rpx_loader.cpp:297-314 | From memory: entering a placed trampoline reaches its target in four interpreter steps through r11 and CTR only |
| LinkedExecution.RelocatedBranchArrives | src/cpu/espresso/rpx_loader.cpp:681-747 | From memory: a relocated b or bl reaches S+A in one step or in five through a trampoline, with LR set exactly when the original links |
| LinkedExecution.LoadedBranchArrives | src/cpu/espresso/rpx_loader.cpp:930-1052 | End to end: after a successful load every AA=0 branch relocated by REL24 that no later entry patches over, fetched from guest memory, arrives at S+A |
| ImportCalls.ImportCallArrives | src/cpu/espresso/rpx_loader.cpp:930-1052 | After a completed load a b or bl on a function import, of addend 0 and not patched over, fetched from guest memory, arrives at an address where the dispatcher finds exactly that import |
| ImportCalls.SlotHolds | src/cpu/espresso/rpx_loader.cpp:545-597 | After a completed load the import slot of an entry, unless patched over, holds in guest memory the address of its export or of its bound import |
| ImportCalls.ExportHolds | src/cpu/espresso/rpx_loader.cpp:545-582 | At the address an object import is relocated with guest memory holds the initial image of that export |
| LinkedExecution.LinkAbsoluteBranch | src/cpu/espresso/rpx_loader.cpp:681-747 | An input on which linking a branch fails its purpose: the entry for the absolute branch 0x48000002 at 0x1000 with S+A 0x1010 is accepted and patched as a relative one |
| LinkedExecution.AbsoluteBranchMisses | src/cpu/espresso/decoder.cpp:363-368 | Running that patched branch does not reach S+A |
| GuestThreads.WakeDueKeeps | src/cpu/espresso/cafe_os_hle.cpp:1258-1272 | Waking due sleepers moves no record and leaves the current one where it is |
| GuestThreads.FindThread | src/cpu/espresso/cafe_os_hle.cpp:1089-1102 | The first record of an address, or the number of records |
| GuestSchedulerModel.GuestScheduler.constructor | src/cpu/espresso/interpreter.hpp:283-300 | The scheduler holds the given records, objects, clock and registers |
| GuestSchedulerModel.GuestScheduler.EnsureGuestThread | src/cpu/espresso/cafe_os_hle.cpp:1089-1102 | Finds the record of an address, or appends exactly one |
| GuestSchedulerModel.GuestScheduler.WakeMessageQueueReceiver | src/cpu/espresso/cafe_os_hle.cpp:1104-1135 | The scan loop wakes the specified waiter and nobody else |
| GuestSchedulerModel.GuestScheduler.WakeDueThreads | src/cpu/espresso/cafe_os_hle.cpp:1258-1272 | The loop wakes the due sleepers in records and objects |
| GuestSchedulerModel.GuestScheduler.SelectReadyThread | src/cpu/espresso/cafe_os_hle.cpp:1273-1323 | The two-pass scan picks the specified thread, of which BestReadyMeans and SwitchHandsOver speak: its second pass never finds one the first did not |
| GuestSchedulerModel.GuestScheduler.EarliestDeadline | src/cpu/espresso/cafe_os_hle.cpp:1328-1335 | The minimum of all timed deadlines, queue waiters left aside |
| GuestSchedulerModel.GuestScheduler.PrepareSwitch | src/cpu/espresso/cafe_os_hle.cpp:1238-1342 | Marking, waking, selecting and, when nobody is runnable, advancing the clock give the specified state and pick |
| GuestSchedulerModel.GuestScheduler.SwitchGuestThread | src/cpu/espresso/cafe_os_hle.cpp:1211-1365 | The imperative switch is the specified state change and result, about which the thread invariants are proved |
| GuestSchedulerModel.GuestScheduler.SendMessage | src/cpu/espresso/cafe_os_hle.cpp:484-573 | The handler computes the specified send, of which SendWakesOne, SendPushes and StepServed speak; an error exactly for an unknown queue, a null message or a full queue with the blocking flag |
| GuestSchedulerModel.GuestScheduler.ReceiveMessage | src/cpu/espresso/cafe_os_hle.cpp:575-684 | The handler computes the specified receive: it pops the front, returns empty-handed, or blocks with its own import as resume address; an error exactly when it would block with nobody to run |
| GuestSchedulerModel.GuestScheduler.SleepTicks | src/cpu/espresso/cafe_os_hle.cpp:2347-2372 | The handler computes the specified sleep, whose deadline SleepDeadline states and NoShortSleep bounds over runs |
| GuestSchedulerModel.GuestScheduler.YieldThread | src/cpu/espresso/cafe_os_hle.cpp:2374-2380 | The handler computes the specified yield: control moves only to a runnable thread of at least equal rank |
| GuestSchedulerModel.GuestScheduler.CreateThread | src/cpu/espresso/cafe_os_hle.cpp:2024-2165 | The handler computes the specified creation: refused arguments change nothing but r3; otherwise exactly one record and one object with its initial context are added |
| ThreadInvariants.SwitchKeepsScheduled | src/cpu/espresso/cafe_os_hle.cpp:1211-1365 | Every switch call, successful or not, keeps: unique records, exactly the current thread RUNNING, sleeping exactly when WAITING, infinite deadlines for queue waiters, timed deadlines strictly in the future |
| ThreadInvariants.SwitchMovesContexts | src/cpu/espresso/cafe_os_hle.cpp:1359-1364 | A switch stores the caller's registers in its own context with the resume address, loads the next thread's, and touches no third context; without a switch no context or register changes |
| ThreadInvariants.PickedRunnable | src/cpu/espresso/cafe_os_hle.cpp:1273-1323 | The thread picked is READY, awake and not the current one |
| ThreadInvariants.WakeDueLoose | src/cpu/espresso/cafe_os_hle.cpp:1258-1272 | After the wake-up no deadline of a sleeper has passed: everybody due is awake, and records and objects agree again |
| ThreadClock.SwitchRespectsDeadlines | src/cpu/espresso/cafe_os_hle.cpp:1258-1365 | Across a switch queue waiters are untouched and timed sleepers wake only at or after their deadline; the clock moves exactly when the switch blocks, nobody can be picked and a finite deadline is pending, and then to the earliest deadline pending once the due sleepers are awake |
| ThreadClock.WakeSlept | src/cpu/espresso/cafe_os_hle.cpp:1258-1272 | The wake-up touches nobody whose deadline has not come: queue waiters and later sleepers keep their records |
| ThreadClock.AdvanceSlept | src/cpu/espresso/cafe_os_hle.cpp:1325-1342 | Advancing the clock moves it to the earliest finite deadline, or not at all when there is none |
| ThreadClock.EarliestMeans | src/cpu/espresso/cafe_os_hle.cpp:1325-1342 | The clock target is some sleeper's deadline, no pending deadline is earlier, and it lies in the future |
| ThreadClock.CurrentWaits | src/cpu/espresso/cafe_os_hle.cpp:1238-1257 | Only a successful blocking switch on a queue leaves its caller waiting, and for that queue |
| ThreadRuns.BestWaiterMeans | src/cpu/espresso/cafe_os_hle.cpp:1104-1135 | The waiter woken waits for the queue, has the lowest priority number and is leftmost among equals; none exactly when nobody waits |
| ThreadRuns.BestReadyMeans | src/cpu/espresso/cafe_os_hle.cpp:1273-1323 | The thread picked is awake, READY, not suspended and allowed on the emulated core, and no such thread comes before it; none exactly when all runnable ones have the largest priority number |
| HandOver.SwitchHandsOver | src/cpu/espresso/cafe_os_hle.cpp:1273-1323 | A switch hands over only to another thread whose suspend count is 0, whose affinity is 0 or has bit 1 set, and whose READY bit is set or whose sleep is over; without blocking only to one of at most the caller's priority number |
| HandOver.StepHandsOver | src/cpu/espresso/cafe_os_hle.cpp:1273-1323 | The same for one step of any call; apart from creation and resumption no step changes a suspend count, an affinity or a priority |
| HandOver.NoSuspendedThreadStarts | src/cpu/espresso/cafe_os_hle.cpp:1297-1310 | In any run a thread that takes control has suspend count 0 and an affinity that allows the emulated core |
| HandOver.SuspendedUntilResumed | src/cpu/espresso/cafe_os_hle.cpp:2218-2246 | In any run a suspended thread never has control until OSResumeThread is called on it |
| HandOver.YieldTakesFirst | src/cpu/espresso/cafe_os_hle.cpp:2374-2380 | A yield hands over to the best thread that can run if its priority number is at most the caller's, and otherwise the caller goes on |
| HandOver.BlockTakesFirst | src/cpu/espresso/cafe_os_hle.cpp:1273-1323 | A call that waits hands over to the best thread that can run, leftmost among equals |
| ThreadRuns.StepKeepsScheduled | src/cpu/espresso/cafe_os_hle.cpp:1211-1365 | Every step of any call keeps the scheduler invariant and isolates the contexts of the other threads |
| ThreadRuns.CreateScheduled | src/cpu/espresso/cafe_os_hle.cpp:2024-2165 | Creating a fresh thread keeps the scheduler invariant and all contexts |
| ThreadRuns.HandleKeepsScheduled | src/cpu/espresso/hle_dispatcher.cpp:162-223 | Whatever bound call the dispatcher enters, the scheduler invariant and the other contexts survive it |
| ThreadRuns.SendScheduled | src/cpu/espresso/cafe_os_hle.cpp:4063-4073 | A send keeps the scheduler invariant, all contexts and the current thread |
| ThreadRuns.ReceiveScheduled | src/cpu/espresso/cafe_os_hle.cpp:4074-4084 | A receive keeps the scheduler invariant; if it blocks, the caller is saved at its own import and the next thread's r3 and CIA are its own |
| ThreadRuns.SleepScheduled | src/cpu/espresso/cafe_os_hle.cpp:2347-2372 | A sleep always completes, and keeps the scheduler invariant and all other contexts |
| ThreadRuns.YieldScheduled | src/cpu/espresso/cafe_os_hle.cpp:2374-2380 | A yield always completes, and keeps the scheduler invariant and all other contexts |
| ThreadRuns.ResumeScheduled | src/cpu/espresso/cafe_os_hle.cpp:2218-2246 | Resuming a thread keeps the scheduler invariant and all contexts |
| ThreadRuns.RunKeepsScheduled | src/cpu/espresso/cafe_os_hle.cpp:1211-1365 | The invariant holds in every state of every run |
| ThreadRuns.ContextSurvives | src/cpu/espresso/cafe_os_hle.cpp:1137-1209 | The context of a switched-out thread survives any number of steps of other threads |
| ThreadRuns.RegainsRegisters | src/cpu/espresso/cafe_os_hle.cpp:1359-1364 | A thread that regains control has all the registers it had when it lost it; CIA is its return address, or its own import if it blocked in a receive |
| WakeUps.SendWakesOne | src/cpu/espresso/cafe_os_hle.cpp:1104-1135 | A send wakes exactly one waiter of its queue if there is one, the one with the lowest priority number; all other records stay |
| WakeUps.SendPushes | src/cpu/espresso/cafe_os_hle.cpp:509-571 | A send adds its message to its queue at the proper end, or changes no queue; it wakes only when it adds |
| WakeUps.DefaultThreadServed | src/cpu/espresso/cafe_os_hle.cpp:1403-1453 | The machine with only its default thread satisfies all invariants: where runs begin |
| WakeUps.FreshServed | src/cpu/espresso/cafe_os_hle.cpp:254-270 | A state without queue waiters satisfies the queue invariant |
| WakeUps.StepServed | src/cpu/espresso/cafe_os_hle.cpp:484-684 | Every step of every call keeps the queue invariant |
| WakeUps.RunServed | src/cpu/espresso/cafe_os_hle.cpp:484-684 | The queue invariant holds throughout every run |
| WakeUps.NoLostWakeUp | src/cpu/espresso/cafe_os_hle.cpp:509-683 | In any run, while a thread sleeps on a queue the queue holds at most as many messages as threads woken for it that have not retried; with none of those it is empty |
| WakeUps.WokenRetriesReceive | src/cpu/espresso/cafe_os_hle.cpp:4074-4084 | A woken thread that has control is at the receive it slept in with the original arguments, and its only possible step is that call |
| WakeUps.WokenStaysReady | src/cpu/espresso/cafe_os_hle.cpp:1104-1135 | A woken thread stays awake with its call intact until it has control |
| WakeUps.SleepsUntilDeadline | src/cpu/espresso/cafe_os_hle.cpp:1258-1272 | In any run a switched-out sleeper sleeps on until its deadline has passed |
| WakeUps.NoEarlyResume | src/cpu/espresso/cafe_os_hle.cpp:1258-1365 | In any run a switched-out sleeper has control again only at or after its deadline |
| ThreadTime.StepClock | src/cpu/espresso/cafe_os_hle.cpp:1325-1342 | One step of any call: the clock moves exactly when the step blocks, no other thread can run and a finite deadline is pending, and then to the minimum of the other sleepers' deadlines and the caller's own, ticks plus the signed count |
| ThreadTime.RunClock | src/cpu/espresso/cafe_os_hle.cpp:1325-1342 | In every step of every run the clock stands still or jumps to the minimum of the deadlines pending at that step, under exactly that condition |
| ThreadTime.SwitchClock | src/cpu/espresso/cafe_os_hle.cpp:1325-1342 | The clock of a blocking switch in terms of the state before it |
| SleepRuns.SleepDeadline | src/cpu/espresso/cafe_os_hle.cpp:1238-1248 | In any run a caller of OSSleepTicks with the signed count s > 0 in r3:r4 that loses control is recorded with the wake tick min(2^64 - 1, ticks + s); the time-of-day offset grows by s, saturating |
| SleepRuns.SleepLasts | src/cpu/espresso/cafe_os_hle.cpp:2347-2372 | In any run such a caller has control again only when the clock has reached that tick |
| SleepRuns.NoShortSleep | src/cpu/espresso/cafe_os_hle.cpp:1325-1342 | From a fresh machine no sleep is cut short, whether control was lost or the clock advanced at once: whenever the caller has control again the clock is at least ticks + s, except that a count that saturates the clock returns at once when nobody else can run |
| SleepRuns.DefaultSleepersAllowed | src/cpu/espresso/cafe_os_hle.cpp:1403-1453 | The machine with only its default thread satisfies the condition of NoShortSleep |
| WakeUps.RetriesSameCall | src/cpu/espresso/cafe_os_hle.cpp:642-651 | A thread that lost control in a receive makes the same call when it regains control: queue, destination and flags are those of the first attempt |
| CallReturns.CallReturns | src/cpu/espresso/hle_dispatcher.cpp:162-223 | A modelled call that keeps control goes on at LR and changes no register but r3: 1 and the message on the queue after an accepted send or receive, 0 and nothing changed after a refusal, 1 or 0 for an accepted or a refused creation |
| CallReturns.ReceiveWaits | src/cpu/espresso/cafe_os_hle.cpp:642-651 | A blocking receive on an empty queue gives up control and leaves its caller asleep on exactly that queue |
| CallReturns.CreatedThreadStarts | src/cpu/espresso/cafe_os_hle.cpp:2024-2165 | When a created thread first has control, CIA is the entry, LR the exit import, r3 and r4 its arguments, r1 the aligned stack top less 8, r2 and r13 the creator's; it was resumed first |
| GuestContext.FieldsApart | src/cpu/espresso/cafe_os_hle.cpp:1137-1169 | The 110 saved fields do not overlap |
| GuestContext.ContextLayout | src/cpu/espresso/cafe_os_hle.cpp:1137-1169 | Each register is saved as a big-endian word or double word at its own offset of OSContext |
| GuestContext.SavedLoads | src/cpu/espresso/cafe_os_hle.cpp:1137-1209 | Loading the bytes of a saved context gives back all registers, with CIA the resume address |
| GuestContext.StoredContext | src/cpu/espresso/cafe_os_hle.cpp:1137-1169 | The stores in guest memory leave exactly the saved bytes, also across region boundaries |
| GuestContext.StoreContextFrame | src/cpu/espresso/cafe_os_hle.cpp:1137-1169 | Saving a context changes nothing outside its object |
| GuestContext.SaveThenLoad | src/cpu/espresso/cafe_os_hle.cpp:1137-1209 | In guest memory: the thread gets its registers back, and another thread with a separate object what it had |
| GuestContext.SaveGuestContext | src/cpu/espresso/cafe_os_hle.cpp:1137-1169 | Fails exactly when the object is not mapped and then changes nothing; else performs all stores |
| GuestContext.LoadGuestContext | src/cpu/espresso/cafe_os_hle.cpp:1171-1209 | Fails exactly when the object is not mapped; otherwise every register is the one its bytes encode |
| MessageRing.AppendInOrder | src/cpu/espresso/cafe_os_hle.cpp:539-569 | Writing behind the last slot appends, wherever the ring wraps |
| MessageRing.PrependInOrder | src/cpu/espresso/cafe_os_hle.cpp:539-569 | Writing before the first slot and moving the index prepends |
| MessageRing.DropInOrder | src/cpu/espresso/cafe_os_hle.cpp:678-682 | Moving the index forward drops the front message |
| MessageRing.SendAccepts | src/cpu/espresso/cafe_os_hle.cpp:509-560 | A send is accepted exactly with room and a mapped message, refused exactly when full without the blocking flag |
| MessageRing.SendRefinesPush | src/cpu/espresso/cafe_os_hle.cpp:539-569 | An accepted send appends its message, or prepends it with high priority; the ring stays well formed |
| MessageRing.ReceiveAccepts | src/cpu/espresso/cafe_os_hle.cpp:609-676 | A receive is accepted exactly with a message and a mapped destination, blocks exactly when empty, blocking and writable, and is refused exactly when empty without the flag |
| MessageRing.ReceiveRefinesPop | src/cpu/espresso/cafe_os_hle.cpp:655-683 | An accepted receive pops the front message into its destination; the ring stays well formed |
| MessageRing.StepRefines | src/cpu/espresso/cafe_os_hle.cpp:484-684 | Every operation is one step of the bounded deque; failures leave the contents unchanged |
| MessageRing.RunRefines | src/cpu/espresso/cafe_os_hle.cpp:484-684 | Over any run the ring in guest memory is the bounded deque, with first < capacity and used <= capacity |
| MessageRing.InitialQueueIsEmpty | src/cpu/espresso/cafe_os_hle.cpp:254-270 | An initialised queue is a well-formed empty ring |
| MessageRing.InitMessageQueue | src/cpu/espresso/cafe_os_hle.cpp:4027-4062 | Fails exactly for a null or unmapped header, else writes the header |
| MessageRing.SendGuestMessage | src/cpu/espresso/cafe_os_hle.cpp:484-571 | The imperative send: outcome and memory are the specified ones, unchanged unless accepted |
| MessageRing.ReceiveGuestMessage | src/cpu/espresso/cafe_os_hle.cpp:575-683 | The imperative receive: outcome and memory are the specified ones, unchanged unless accepted |
| ThreadObjects.StateStored | src/cpu/espresso/cafe_os_hle.cpp:1238-1271 | Storing the state byte changes that field of that object in guest memory, and no cell outside the object |
| ThreadObjects.SuspendStored | src/cpu/espresso/cafe_os_hle.cpp:2234-2244 | The same for the suspend count |
| ThreadObjects.ContextStored | src/cpu/espresso/cafe_os_hle.cpp:1137-1169 | Saving a context replaces the context of that object, keeps its other fields, and touches no cell outside it |
| RingExtents.RingKept | src/cpu/espresso/cafe_os_hle.cpp:509-516 | A queue whose header and array keep their bytes is the same queue with the same messages |
| RingExtents.SendKeeps | src/cpu/espresso/cafe_os_hle.cpp:562-569 | A send stores only into its queue |
| RingExtents.ReceiveKeeps | src/cpu/espresso/cafe_os_hle.cpp:678-682 | A receive stores only into its destination and its queue |
| RingExtents.InitKeeps | src/cpu/espresso/cafe_os_hle.cpp:254-270 | The initialisation of a queue stores only into its header |
| ThreadMemory.ThreadStored | src/cpu/espresso/cafe_os_hle.cpp:1211-1365 | Stores into one OSThread object leave memory encoding the state with that thread changed: no other object and no queue is disturbed |
| ThreadMemory.QueueStored | src/cpu/espresso/cafe_os_hle.cpp:484-684 | Stores into one queue leave memory encoding the state with that queue changed: no object and no other queue is disturbed |
| SwitchMemory.WakeEncoded | src/cpu/espresso/cafe_os_hle.cpp:1258-1272 | After the stores of the wake-up loop memory encodes the woken state |
| SwitchMemory.PreparedEncoded | src/cpu/espresso/cafe_os_hle.cpp:1238-1342 | After the stores up to the choice of the next thread memory encodes the prepared state |
| SwitchMemory.SwitchEncoded | src/cpu/espresso/cafe_os_hle.cpp:1211-1365 | After all stores of a switch memory encodes the state it leaves: states, contexts and queues |
| SwitchMemory.SwitchLoads | src/cpu/espresso/cafe_os_hle.cpp:1171-1209 | The registers a switch loads are those its target's OSContext holds in guest memory |
| MachineMemory.PushEncoded | src/cpu/espresso/cafe_os_hle.cpp:539-571 | An accepted send copies the message the source held and leaves memory encoding the longer queue |
| MachineMemory.ReceivedQueue | src/cpu/espresso/cafe_os_hle.cpp:655-683 | An accepted receive delivers the front message to its destination and leaves the ring without it |
| MachineMemory.PopEncoded | src/cpu/espresso/cafe_os_hle.cpp:655-683 | After a receive memory encodes the shorter queue, and all other queues and all threads as before |
| MachineMemory.InitEncoded | src/cpu/espresso/cafe_os_hle.cpp:254-270 | Initialising a queue in a free place, also again, leaves memory encoding it empty |
| MachineMemory.StepEncoded | src/cpu/espresso/cafe_os_hle.cpp:484-684 | For every call: if memory encodes the scheduler's state, then after the stores of the step it encodes the next one |
| MachineMemory.RunEncoded | src/cpu/espresso/cafe_os_hle.cpp:484-1365 | Over any run guest memory holds the scheduler's threads, contexts and queues |
| MachineMemory.OneThreadEncoded | src/cpu/espresso/cafe_os_hle.cpp:1403-1453 | A memory that holds the default thread's object encodes the state where runs begin |
| MachineMemory.ContextStaysInMemory | src/cpu/espresso/cafe_os_hle.cpp:1137-1209 | In guest memory the OSContext of a switched-out thread keeps its registers through any number of steps of other threads |
| MachineMemory.RegainsFromMemory | src/cpu/espresso/cafe_os_hle.cpp:1359-1364 | A thread that has control again runs with the registers its OSContext held in guest memory |
| MachineMemory.NoLostWakeUpInMemory | src/cpu/espresso/cafe_os_hle.cpp:509-683 | No lost wake-up down to bytes: while a thread sleeps on a queue the ring in guest memory holds at most as many messages as woken threads that have not retried |
| FrameHeap.PlaceComplete | src/cpu/espresso/cafe_os_hle.cpp:978-1011 | The allocator succeeds at either end exactly when an aligned block fits; the head takes the lowest place, the tail the highest |
| FrameHeap.EndsAgree | src/cpu/espresso/cafe_os_hle.cpp:978-1011 | A head request succeeds exactly when a tail request would |
| FrameHeap.AllocatableExact | src/cpu/espresso/cafe_os_hle.cpp:923-939 | A head request of a size succeeds exactly up to the queried size |
| FrameHeap.DecideMeans | src/cpu/espresso/cafe_os_hle.cpp:947-1034 | What an accepted call has checked: heap, flags, alignment, place, mapped memory, boundary |
| FrameHeap.DecideExact | src/cpu/espresso/cafe_os_hle.cpp:941-1011 | The call in terms of its arguments: an error for a bad alignment, header or debug flag; null if and only if no aligned block of the requested size, one byte for zero, fits between head and tail; an address if and only if it is the lowest or the highest such block and is mapped |
| FrameHeap.AllocationKeepsHeap | src/cpu/espresso/cafe_os_hle.cpp:1021-1047 | After success the heap is valid with exactly the block taken off one end, and the block is cleared exactly when the flag is set |
| FrameHeap.CommitFrame | src/cpu/espresso/cafe_os_hle.cpp:1035-1046 | Memory apart from the header, and from a cleared block, keeps its bytes |
| FrameHeap.CommitBlock | src/cpu/espresso/cafe_os_hle.cpp:1035-1046 | The block is cleared when asked for and otherwise unchanged |
| FrameHeap.ValidateFrameHeap | src/cpu/espresso/cafe_os_hle.cpp:873-921 | A heap exactly when the header is mapped, tagged and its bounds are ordered |
| FrameHeap.HeaderExact | src/cpu/espresso/cafe_os_hle.cpp:873-921 | Which words of guest memory make a valid header: the tag, and data start, head, tail and data end in this order behind the header |
| FrameHeap.FindPlace | src/cpu/espresso/cafe_os_hle.cpp:978-1011 | The 64-bit steps of both ends, with their guards, give exactly the specified place |
| FrameHeap.AllocateFromFrameHeap | src/cpu/espresso/cafe_os_hle.cpp:941-1047 | The imperative allocation: result and memory are the specified ones, unchanged unless it succeeds |
| FrameHeap.AllocatableSize | src/cpu/espresso/cafe_os_hle.cpp:923-939 | An answer exactly for a valid heap, and the size that AllocatableExact characterises |
| ExpandedHeap.ListUnique | src/cpu/espresso/cafe_os_hle.cpp:711-810 | Guest memory holds at most one free list |
| ExpandedHeap.ListAcyclic | src/cpu/espresso/cafe_os_hle.cpp:711-810 | A list that ends visits no block twice |
| ExpandedHeap.CycleHasNoList | src/cpu/espresso/cafe_os_hle.cpp:711-810 | A block met twice proves that there is no list that ends |
| ExpandedHeap.BrokenHasNoList | src/cpu/espresso/cafe_os_hle.cpp:711-810 | An invalid block on the way proves it too |
| ExpandedHeap.SpaceExact | src/cpu/espresso/cafe_os_hle.cpp:832-862 | The space of a block is exactly the largest aligned request that fits in it |
| ExpandedHeap.LargestExact | src/cpu/espresso/cafe_os_hle.cpp:832-862 | The result is attained by some block of the list and exceeded by none |
| ExpandedHeap.LargestWithinTotal | src/cpu/espresso/cafe_os_hle.cpp:812-862 | The largest request never exceeds the total free size |
| ExpandedHeap.LargestIsWord | src/cpu/espresso/cafe_os_hle.cpp:832-862 | The size query's own overflow check never fires |
| ExpandedHeap.TotalFreeSize | src/cpu/espresso/cafe_os_hle.cpp:711-831 | On any guest memory the walk ends; it succeeds exactly on an acyclic, in-bounds, tagged list whose sizes fit a word, and returns their sum |
| ExpandedHeap.AllocatableSize | src/cpu/espresso/cafe_os_hle.cpp:833-862 | On any guest memory the walk ends; it succeeds exactly on such a list and returns the aligned maximum |
| ExpandedHeap.ReadHeader | src/cpu/espresso/cafe_os_hle.cpp:717-760 | Bounds exactly for a mapped, tagged header with ordered bounds |
| ExpandedHeap.ReadBlock | src/cpu/espresso/cafe_os_hle.cpp:772-810 | A block exactly when it is mapped, tagged and inside the bounds with its data |
| ExpandedHeap.HeaderExact | src/cpu/espresso/cafe_os_hle.cpp:717-760 | Which words of guest memory make a valid header: the tag and ordered bounds |
| ExpandedHeap.BlockExact | src/cpu/espresso/cafe_os_hle.cpp:772-810 | Which words make a free block: inside the bounds with its data, the size, the next pointer and the tag |
| DefaultHeaps.BumpMeans | src/cpu/espresso/interpreter.hpp:342-360 | The bump allocator gives the lowest aligned address that fits under the limit, or there is none |
| DefaultHeaps.PartitionExact | src/cpu/espresso/cafe_os_hle.cpp:1465-1547 | The split exists exactly from 0x10C0 free bytes on; reserve, frame heap and expanded heap are aligned, ordered and fill the gap |
| DefaultHeaps.PartitionShares | src/cpu/espresso/cafe_os_hle.cpp:1465-1547 | The shares of the gap: from 16 MiB on a third for the expanded heap and a quarter for the frame heap, rounded up to 16; below that a quarter for each, capped by the room left; 0x1000 bytes stay for the bump heap |
| DefaultHeaps.ForegroundValid | src/cpu/espresso/cafe_os_hle.cpp:1603-1614 | The frame heap written is valid and empty |
| DefaultHeaps.Mem2Fresh | src/cpu/espresso/cafe_os_hle.cpp:1619-1640 | The expanded heap written has one free block, of the region size minus both headers |
| DefaultHeaps.HeapsFresh | src/cpu/espresso/cafe_os_hle.cpp:1603-1640 | After the initialisation both heaps are valid and empty: neither's stores disturb the other |
| DefaultHeaps.HeapsFrame | src/cpu/espresso/cafe_os_hle.cpp:1603-1640 | The initialisation changes no byte outside the two headers |
| DefaultHeaps.GuestHeaps.ConfigureGuestHeap | src/cpu/espresso/interpreter.hpp:333-340 | The gap becomes the bump heap and no default heap exists |
| DefaultHeaps.GuestHeaps.AllocateGuestMemory | src/cpu/espresso/interpreter.hpp:342-360 | The imperative bump allocation; a refusal changes nothing |
| DefaultHeaps.GuestHeaps.ChooseLayout | src/cpu/espresso/cafe_os_hle.cpp:1457-1565 | The layout, or none when a heap exists already, the gap is too small or its memory is not mapped |
| DefaultHeaps.GuestHeaps.InitialiseDefaultHeaps | src/cpu/espresso/cafe_os_hle.cpp:1455-1652 | Stores both heaps, lowers the bump limit to the frame heap, or changes nothing |
| AllocationSafety.StepSafe | src/cpu/espresso/cafe_os_hle.cpp:941-1047 | Every allocation of any kind keeps the blocks returned so far safe |
| AllocationSafety.RunSafe | src/cpu/espresso/cafe_os_hle.cpp:941-1047 | The safety invariant over any interleaving |
| AllocationSafety.EveryAllocationSafe | src/cpu/espresso/cafe_os_hle.cpp:1455-1652 | From load through any interleaving of default-heap and head or tail frame allocations, all blocks are aligned, pairwise disjoint, and clear of heap headers, the expanded heap, sections, trampolines and both windows |
| AllocationSafety.RequestsDisjoint | src/cpu/espresso/cafe_os_hle.cpp:941-1047 | In terms of the calls only: two accepted frame requests of any run get addresses whose requested ranges, one byte for zero, are disjoint, inside the heap's data and multiples of the absolute alignment |
| FsClients.AddRegisters | src/cpu/espresso/cafe_os_hle.cpp:3443-3494 | A registration that is not a duplicate keeps client ranges disjoint and handles distinct and increasing; the body is 64-aligned inside the client |
| FsClients.AddExact | src/cpu/espresso/cafe_os_hle.cpp:3443-3494 | Added if and only if the library is initialised, the client nonnull, mapped for 0x1700 bytes, apart from every client registered and a handle is left; an error exactly for an unusable one; the registration is client, aligned body and next handle |
| FsClients.AddKeepsRing | src/cpu/espresso/cafe_os_hle.cpp:3495-3572 | Linking a new client turns the circular list in guest memory into the one with the client last |
| FsClients.FollowVisits | src/cpu/espresso/cafe_os_hle.cpp:3544-3572 | Following next links visits the clients in registration order and comes round |
| FsClients.LinksInverse | src/cpu/espresso/cafe_os_hle.cpp:3544-3572 | Next and previous are inverse |
| FsClients.UnaliasedClean | src/cpu/espresso/cafe_os_hle.cpp:3443-3494 | Registered clients that no alias meets share no cell |
| FsClients.RunKeepsRing | src/cpu/espresso/cafe_os_hle.cpp:3443-3574 | After any run of FSAddClient calls in which no client shares storage through an alias the ring holds all clients, apart and with distinct handles |
| FsClients.FsLibrary.constructor | src/cpu/espresso/interpreter.hpp:401-402 | The library starts without clients and with handle 1 |
| FsClients.FsLibrary.IsDuplicate | src/cpu/espresso/cafe_os_hle.cpp:3471-3482 | True exactly when a registered client or body meets the new one |
| FsClients.FsLibrary.Decide | src/cpu/espresso/cafe_os_hle.cpp:3443-3489 | Added, refused or an error exactly as the checks on library, address, alignment, mapping, duplicates and handles say |
| FsClients.FsLibrary.AddClient | src/cpu/espresso/cafe_os_hle.cpp:3432-3576 | The imperative call: outcome, registrations and memory are the specified ones, unchanged unless added |
| RegisterState.ApplyConcat | src/gpu/gx2_register_state.hpp:51-152 | Applying two chunks is applying their concatenation |
| RegisterState.ChunksIrrelevant | src/gpu/gx2_register_state.hpp:51-152 | However the stream is split into calls, the shadow is the same |
| RegisterState.OneEntryPerDraw | src/gpu/gx2_register_state.hpp:51-152 | All per-draw vectors have one entry per draw |
| RegisterState.SnapshotIsReplay | src/gpu/gx2_register_state.hpp:51-152 | Entry i of every per-draw vector is what applying only the commands before draw i to a fresh state gives |
| LastWrites.LastWriteWins | src/gpu/gx2_register_state.hpp:51-152 | After any command list from a fresh state every slot holds its last write: vertex buffers by index, shaders by stage, the fetch shader, color targets and the depth buffer, with none for address 0, and each register with the kind of its write; a slot never set holds none |
| LastWrites.DrawSeesLastWrites | src/gpu/gx2_register_state.hpp:51-152 | The entry of a draw in every per-draw vector is the last writes among the commands before it |
| LastWrites.UnitHoldsLastWrites | src/gpu/gx2_register_state.hpp:167-251 | A texture or sampler unit of any stage is the last value written to each of its words, if each was last written as such a resource, and none otherwise |
| LastWrites.EventsKept | src/gpu/gx2_register_state.hpp:51-152 | Fences and scan buffer swaps are those of the stream, in order |
| RegisterState.Gx2RegisterState.constructor | src/gpu/gx2_register_state.hpp:51-60 | The shadow starts empty |
| RegisterState.Gx2RegisterState.FindTextureResource | src/gpu/gx2_register_state.hpp:167-208 | The seven words of a unit, once all are written as shader resources |
| RegisterState.Gx2RegisterState.FindSampler | src/gpu/gx2_register_state.hpp:210-251 | The three words of a sampler, once all are written as samplers |
| RegisterState.Gx2RegisterState.SnapshotShaderResources | src/gpu/gx2_register_state.hpp:384-402 | The resources of every unit of every stage |
| RegisterState.Gx2RegisterState.SnapshotRegisters | src/gpu/gx2_register_state.hpp:372-382 | Every register exactly once |
| RegisterState.Gx2RegisterState.BindCommand | src/gpu/gx2_register_state.hpp:51-152 | A binding or register command changes the shadow as specified, of which LastWriteWins speaks |
| RegisterState.Gx2RegisterState.RecordDrawCall | src/gpu/gx2_register_state.hpp:51-152 | A draw appends one entry, the current state, to every per-draw vector |
| RegisterState.Gx2RegisterState.Apply | src/gpu/gx2_register_state.hpp:51-152 | Applying a chunk in place is folding its commands, the fold that ChunksIrrelevant, SnapshotIsReplay and LastWriteWins speak of |
| TextureResource.EndianKnown | src/cpu/espresso/gx2_hle.cpp:1499-1541 | The endian table accepts exactly the formats with a known layout or compression |
| TextureResource.EndianByElement | src/cpu/espresso/gx2_hle.cpp:1499-1541 | The endian code by element: 0 for bytes, words and compressed blocks, 1 for 16 bits, 2 for elements packed into 32 bits, 3 into 64 |
| TextureResource.AcceptedExactly | src/cpu/espresso/gx2_hle.cpp:1588-1670 | Which textures are accepted: extents up to 0x2000, a known format without other bits than those of number, sign and degamma, selectors up to 5, a pitch in pixels below 2^32, whole cubes, mips and slices inside the surface |
| TextureResource.SignAndCube | src/cpu/espresso/gx2_hle.cpp:1672-1710 | The bits no decoder reads: all components are signed exactly for format bit 9, and the cube array bit is set exactly for a cube map of more than six faces |
| TextureResource.Word0Decodes | src/gpu/latte_texture_resource.hpp:40-101 | The decoder undoes the encoder on word 0: dimension, tile mode and type, pitch, width |
| TextureResource.Word1Decodes | src/gpu/latte_texture_resource.hpp:40-101 | The same on word 1: height, depth, format |
| TextureResource.Word4Decodes | src/gpu/latte_texture_resource.hpp:40-101 | The same on word 4: number format, degamma, endian, selectors, base level |
| TextureResource.Word5Decodes | src/gpu/latte_texture_resource.hpp:40-101 | The same on word 5: last level and slice range |
| TextureResource.PitchExact | src/cpu/espresso/gx2_hle.cpp:1643-1646 | The pitch survives if and only if it is a positive multiple of eight up to 0x4000 |
| TextureResource.WidthExact | src/cpu/espresso/gx2_hle.cpp:1647-1647 | The width survives if and only if it is not zero |
| TextureResource.DepthExact | src/cpu/espresso/gx2_hle.cpp:1659-1670 | The depth survives if and only if the dimension has one or it is one; cube arrays count faces by six |
| TextureResource.LastLevelSurvives | src/cpu/espresso/gx2_hle.cpp:1693-1697 | The last level is the view's own if and only if multisampling does not replace it |
| TextureResource.FieldsSurvive | src/cpu/espresso/gx2_hle.cpp:1643-1670 | The conditions for pitch, width and depth, on every accepted texture |
| TextureResource.NarrowPitchIsLost | src/cpu/espresso/gx2_hle.cpp:1643-1646 | A texture with pitch 4 is accepted and decodes to another pitch |
| TextureResource.ZeroWidthIsLost | src/cpu/espresso/gx2_hle.cpp:1647-1647 | A texture of width 0 is accepted and decodes to another width |
| TextureResource.FlatDepthIsLost | src/cpu/espresso/gx2_hle.cpp:1659-1670 | A flat texture of depth 2 is accepted and decodes to another depth |
| TextureResource.SampleCountReplacesLevel | src/cpu/espresso/gx2_hle.cpp:1693-1697 | A multisampled texture is accepted and decodes to another last level |
| TextureResource.DecodeEncoded | src/gpu/latte_texture_resource.hpp:40-101 | Every accepted texture decodes and is never rejected; height, format, selectors, base level, slices and aligned addresses are its own, and pitch, width, depth and last level are those that fit the registers |
| TextureResource.DescribedExactly | src/gpu/latte_texture_resource.hpp:40-101 | An accepted texture decodes to its own pitch, width, height, depth, last level and all else if and only if pitch and width have a code, the dimension carries the depth and multisampling leaves the level |
| TextureResource.SelectorsAndEndian | src/cpu/espresso/gx2_hle.cpp:1622-1691 | The selectors in the description are the four bytes of the component map, and its endian code is the one by element |
| TextureResource.ViewAndFlags | src/cpu/espresso/gx2_hle.cpp:1636-1700 | Dimension, tiling, height, base format, first level and slice are the program's own; depth tiling is use bit 2, degamma format bit 10, and bits 11 and 8 choose the number format |
| TextureResource.SwizzleParts | src/cpu/espresso/gx2_hle.cpp:1774-1786 | The swizzle word is the stop level in bits 16 to 23 above the address bits below |
| TextureResource.ImageSwizzle | src/cpu/espresso/gx2_hle.cpp:1762-1786 | The swizzle bits toggle the image address exactly for macro-tiled modes with a stop level above 0 |
| TextureResource.MipmapSwizzle | src/cpu/espresso/gx2_hle.cpp:1762-1786 | They toggle the mipmap address, that of the image without mipmaps, exactly for macro-tiled modes with a stop level above 1 |
| TextureResource.BindAccepts | src/cpu/espresso/gx2_hle.cpp:1730-1763 | A binding is accepted if and only if the library is initialised, the pointer usable, the unit below 16 and the low swizzle byte 0 |
| TextureResource.ObjectDescribed | src/cpu/espresso/gx2_hle.cpp:1543-1720 | Which words of the texture object make the description, addresses and swizzle included |
| TextureResource.BindingReadsBack | src/gpu/gx2_register_state.hpp:167-208 | After the stream of a binding its unit holds the seven words and every other unit of every stage what it held |
| TextureResource.TextureRoundTrip | src/cpu/espresso/gx2_hle.cpp:1748-1810 | Encode, bind to any unit of any stage, apply, decode: what the register words mean, never rejected, with no other unit changed |
| TextureResource.TextureSurvives | src/cpu/espresso/gx2_hle.cpp:1748-1810 | From the shadow the bound unit decodes to the program's own texture, aligned and swizzled addresses included, if and only if the registers can hold it |
| TextureResource.InitialiseTextureRegisters | src/cpu/espresso/gx2_hle.cpp:1543-1720 | Accepts exactly the encodable textures and stores the five register words, otherwise changes nothing |
| TextureResource.Gx2.SetTexture | src/cpu/espresso/gx2_hle.cpp:1722-1811 | Appends the seven register writes and records the binding, or changes nothing |

## Left out

- GuestMemoryModel.GuestMemory.LoadScalar: the accessors of 1, 2, 4 and 8 bytes are one method with a width, and so are the writers (StoreScalar); they differ in nothing else.
- GuestMemoryModel.GuestMemory.Write8: write watchpoints are not modelled, here and in the other writers.
- PageGenerations.MarkWrittenAdvances: does not model the wrap-around of the 64-bit counters; the scheduler ticks are unbounded naturals too, except where the source saturates.
- CodeCoherence.UnchangedGenerationUnchangedPage: excludes byte writes through aliases, for which it is false; Write8AdvancesIffNotAliased is the exact condition.
- RpxLoader.LoadRpx: the check of the entry point, ELF and section parsing, and inflation are not modelled; sections arrive as address, flag and bytes.
- RpxLinker.RpxLinker.ApplyRelocations: the relocations DTPMOD32, DTPREL32 and GHS REL16 are not modelled.
- RpxLinker.LinkedMeans: an entry that a later one patches over is not claimed to be encoded; it need not be.
- HleDispatcherModel.InitialiseExport: a data initialiser is the bytes it leaves in its export.
- HleDispatcherModel.HleDispatcher.BindImport: function handlers are not part of the tables; the modelled calls are those of the thread modules.
- HleDispatcherModel.HleDispatcher.ConfigureGuestAddressBase: a base whose windows end at 2^32 is accepted with an end of zero as in the source, and no invariant is claimed for it; the search never proposes it.
- GuestSchedulerModel.GuestScheduler.CreateThread: re-creating a live OSThread, inherited exception callbacks, stack canaries and memory faults are not modelled; a failing call ends the run, as an execution error does.
- GuestSchedulerModel.GuestScheduler.SendMessage: memory faults of the call are in the ring model; that each queue of the scheduler is a ring in guest memory is MachineMemory.StepEncoded.
- SleepRuns.NoShortSleep: a sleep whose end saturates the clock and that finds nobody else to run returns at once, as in the source.
- GuestSchedulerModel.GuestScheduler.SelectReadyThread: fairness is not claimed; equal priorities can starve, because the second pass repeats the first.
- ThreadRuns.RegainsRegisters: the lwarx reservation is not part of the saved context, and not of the model.
- MessageRing.RunRefines: assumes that header, slots and destinations share no cell with each other.
- MachineMemory.StepEncoded: assumes that objects and queues share no cell, and that guest code and receive destinations stay outside them; the stores of OSCreateThread are summarised by the object they leave in a free place.
- MessageRing.SendGuestMessage: stops before the wake-up, whose store is part of MachineMemory.SendStores.
- FrameHeap.AllocationKeepsHeap: assumes that the block shares no cell with its header, which an alias could break; in the foreground heap it is proved.
- ExpandedHeap.AllocatableSize: alignments that are not powers of two are left out; the handler rejects them before the walk.
- DefaultHeaps.GuestHeaps.InitialiseDefaultHeaps: the MEM1 frame heap and its alias are left out, because it shares the low 32 MiB of flat memory with image and heaps.
- AllocationSafety.EveryAllocationSafe: covers the default heap and the foreground frame heap; frame heaps a program builds elsewhere are guest activity that leaves the header alone.
- FsClients.AddKeepsRing: assumes that no two clients share cells through aliases.
- FsClients.RunKeepsRing: assumes that in every state of the run no alias meets a client, or at least no cell of one is shared; the nested fills of one client are modelled as word stores.
- RegisterState.Gx2RegisterState.SnapshotRegisters: the order of the snapshot is unspecified, as in an unordered map.
- RegisterState.Gx2RegisterState.BindCommand: payloads of vertex, shader and target bindings are opaque values.
- TextureResource.InitialiseTextureRegisters: the texture object is an array of its 39 words, assumed mapped.
- The write watchpoints, instruction history and fault diagnostics of guest memory.
- The rest of the decoder and interpreter tables, floating point and the recompiler.
- OSExitThread, mutexes, events, and single-threaded lock calls: easy and local.
- The other GX2 setters and getters, sampler decoding, surface sizes, texture staging, scanout, vsync pacing and host time.
- The Vulkan, SDL and ImGui frontend, host files, input, OSReport and the nn_* stubs.
