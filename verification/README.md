# Verified models of the capture and streaming core

The repository streams a game or desktop: a library injected into the captured process hooks
its presentation functions and shares each frame; an engine converts, encodes and sends the
frames to websocket clients and replays their input. This project models the four parts of it
whose correctness is hardest to see from the code, and proves what they promise.

* **RGB to I420 conversion** (`Simd`, `I420`, `YuvKernels`, `YuvRows`, `YuvFrame`,
  `YuvConvert`, `EncoderPlanes`). `I420` is the scalar definition. `Simd` gives the vector
  instructions with their wrapping, saturation and lanes; the kernels, tail wrappers and frame
  loops built from them are proved equal to the scalar definition for every size, stride and
  layout. `EncoderPlanes` is the layout the encoder asks for.
* **The inline hook engine.** `RtlString`, `X64`, `Reloc`, `RelocMeaning`, `RelocLimits`,
  `RelocExamples`: when moving the first instructions of a function elsewhere preserves their
  meaning, and when not; `RelocVerdict`: which entry points are moved at all. The disassembler
  is a parameter with stated properties, shown to be consistent. `PageSearch`: the allocation
  near the target. `HookAllocation`: both put together. `Barrier`, `BarrierRuns`,
  `BarrierEntries`, `BarrierNesting`, `BarrierUnit`: the per-thread barrier around hook
  handlers refines a stack of frames and grants the entries it should. `HookEngine`,
  `HookRuns`, `HookStacks`, `HookChains`, `HookRegistry`: install, uninstall and wait, as
  values, over whole runs, with several hooks on one target, over whole runs of these, and on
  records linked by address. `HookSteps`: the same calls taken apart into their locked sections
  and what lies between them, and interleaved. `HookJumps`: where the planted jumps go, by the
  decoder of `X64`. `HookedProcess`, `HookHandlers`: threads running through the trampolines
  and the barrier while hooks come and go.
* **Session framing** (`Framing`, `Inbound`, `Outbound`, `Encoder`, `GameSession`): the
  incremental parser of client packages and the queue of server packages.
* **The two-slot texture hand-off** (`Handoff`, `HandoffLimits`, `TextureSlots`) between the
  captured process and the encoder.

Code that changes state in place is modelled by methods on arrays and classes, each proved
against a function of the old state; the theorems are about those functions. Threads and
processes are modelled as sequences of steps in any interleaving.

## Findings

Where the code does less than its comments or documentation say, the model follows the code,
and a lemma states exactly what happens.

* `uninstall.c:77-90`: the predecessor pointer never advances, so uninstalling a hook that is
  not the newest also drops every newer hook from the list
  (`HookRegistry.HookRegistry.RemoveFromList`, `HookRuns.UninstallIsExactAtHead`); dropped
  hooks stay patched after finalization (`HookRuns.FinalizeLeavesDropped`).
* `uninstall.c:121-147`: uninstall-all queues the hooks of one target oldest first, and a wait
  then leaves an older jump in place (`HookStacks.UninstallAllLosesStack`,
  `UninstallAllLeavesOlder`). A wait restores a target if and only if its hooks stand on the
  removal list newest first (`RestoredIffNewestFirst`), which single uninstalls give only when
  the older hook goes first (`UninstallOrderDecides`). Over whole runs finalizing restores all
  code if and only if at every target the hooks below the newest are already pending newest
  first (`HookChains.FinalizingRestoresIff`).
* `HookSpecific_x64.asm:190-251`, `uninstall.c:215-231`: the execution counter is raised some
  instructions behind the jump into the trampoline and lowered before its end and the moved
  instructions run, all on the hook's own page; a wait can free the page under such a thread
  (`HookedProcess.FreedWhileComing`, `FreedWhileLeaving`), and does no harm if and only if
  there is none (`FreeIsSafeIff`).
* `uninstall.c:33-37`, `HookSpecific_x64.asm:212-310`: a handler is said never to run again
  after its hook was uninstalled. No thread starts it any more (`HookHandlers.NeverStartsAgain`),
  but the trampoline reads the handler's address again after the barrier has let the thread in,
  and jumps to NULL if and only if the hook was uninstalled in between (`JumpsNowhereIff`,
  `UninstalledUnderThread`).
* `reloc.c`: a zero or segment-prefixed rip displacement is not relocated, LOOP is copied
  unchanged, and a 0x67 prefix is dropped or makes a displacement be read as 16 bits
  (`RelocExamples`). An entry point keeps its meaning if and only if every instruction that
  control reaches is handled (`RelocLimits.MeaningKeptIffHandled`).
* `barrier.c`: a failed allocation leaves a thread with a NULL table and its next entry crashes
  (`BarrierRuns.FailedAllocationCrashesNextEntry`); the handler context is not restored after
  a nested or refused hook (`ReturnAddressOnlyAtFirst`).
* `video_encoder.cpp:570-584`: for odd widths or heights rows of the planes as laid out
  overlap, though all stay inside the buffer of 4*w*h bytes, and some pictures are not
  converted (`EncoderPlanes.OddSizeHasNoImage`, `ImageIffEven`).
* `video_encoder.cpp:734-751`: the slot's id is read again after its texture was opened, so a
  texture replaced in between is cached under the id of the new one
  (`HandoffLimits.RecordedIffNotReplaced`); from then on, until the picture changes size, the
  encoder reads an old frame from that slot (`MixupRuns`, `OldFrameForever`).
* `game_session.cpp:257-288`: an empty package, or one whose total wraps, is handled by a byte
  outside it before the login (`Inbound.DeterminedIffWhole`); a size of 2^32-4 is accepted
  again and again, and the loop fails to end exactly when the bytes lead to one
  (`Inbound.SpinsIffStalls`, `NewSessionSpinsIffStalls`).

## Model

| member | source | states |
|---|---|---|
| YuvKernels.YBlockSsse3Correct | src/deps/yuv/yuv.c:89-120 | For every layout and all 64 bytes of 16 pixels, the pmaddubsw/phaddw/psrlw/packuswb sequence leaves the scalar luma ((66R+129G+25B+128)>>8)+16 of pixel i in byte i: no lane saturates or wraps. |
| YuvKernels.YBlockAvx2Correct | src/deps/yuv/yuv.c:307-359 | The same for 32 pixels in two lanes: vpermd undoes the lane order of vphaddw and vpackuswb. |
| YuvKernels.UVBlockSsse3Correct | src/deps/yuv/yuv.c:122-183 | Byte c is the scalar U and byte 8+c the scalar V of the twice rounded average (columns first) of the 2x2 pixels of sample c. |
| YuvKernels.UVBlockAvx2Correct | src/deps/yuv/yuv.c:364-419 | The same for 32 pixels of two rows: vpermq and vpshufb put sample c of U at byte c and of V at byte 16+c. |
| I420.BlendRounds | src/deps/yuv/yuv.c:137-156 | Each byte a chroma sample is taken from is the nearest integer, halves upward, to the mean of two column means rounded the same way; against the mean of the four pixels it is never below and at most one above. |
| I420.NearBt601 | src/deps/yuv/yuv.c:71-79 | For the bytes of every layout and every colour, luma is within one and chroma within two of the exact levels of ITU-R BT.601 for 8-bit studio swing. |
| I420.GreyIsNeutral | src/deps/yuv/yuv.c:71-79 | Every grey has both chroma levels at 128. |
| YuvRows.YRowKernel | src/deps/yuv/yuv.c:342-359 | A row of whole blocks: the destination afterwards is the old one with the scalar luma row spliced in at dp, nothing else changed. |
| YuvRows.UVRowKernel | src/deps/yuv/yuv.c:364-419 | A pair of rows of whole blocks: memory afterwards is the old one with the scalar U and V rows stored block by block, wherever they lie, on top of each other included. |
| YuvRows.YRowAny | src/deps/yuv/yuv.c:227-241 | The tail wrapper is exact for every width: block part plus temporary buffer write exactly the scalar luma row of `width` bytes. |
| YuvRows.UVRowAny | src/deps/yuv/yuv.c:201-225 | The chroma wrapper is exact for every width, odd widths included (the last column is repeated), and for rows that overlap: (width+1)/2 bytes of U and of V are stored block by block, and no index of the temporary buffer leaves it. |
| YuvRows.InBlocksAt | src/deps/yuv/yuv.c:201-225 | What a byte of two rows stored that way holds, in closed form: its sample if one row covers it; of two the one whose block comes later, V within one block; else what it held. |
| YuvRows.InBlocksApart | src/deps/yuv/yuv.c:201-225 | Rows that do not overlap end up whole, for either block size. |
| YuvRows.BlockSizeMatters | src/deps/yuv/yuv.c:364-419 | Rows that overlap come out differently from the SSSE3 and the AVX2 loop, at concrete offsets. |
| YuvFrame.RowsLand | src/deps/yuv/yuv.c:261-287 | When no two destination rows overlap, every row holds its wanted bytes after all row calls were made in the loop's order. |
| YuvFrame.OthersStay | src/deps/yuv/yuv.c:261-287 | A byte outside every destination row keeps its value, whatever the strides and overlaps. |
| YuvFrame.ScheduleIsEveryRow | src/deps/yuv/yuv.c:261-287 | The loop of row pairs, with its odd last row, visits exactly the luma rows 0..h-1 and the chroma rows 0..(h-1)/2 of both planes. |
| YuvFrame.ConvertRows | src/deps/yuv/yuv.c:424-475 | The frame loop with its moving pointers leaves memory as the row calls made in order, for aligned and any-width row functions and for all strides whose rows lie in the buffers. |
| YuvConvert.ToI420 | src/deps/yuv/yuv.c:477-506 | All three entry points: -1 and no change for width <= 0 or height 0, else the conversion of the frame a negative height turns upside down. |
| YuvConvert.BGRAToI420 | src/deps/yuv/yuv.c:244-289 | Its result is the converted frame in BGRA order through the SSSE3 kernels. |
| YuvConvert.ARGBToI420 | src/deps/yuv/yuv.c:477-506 | Its result is the converted frame in ARGB order through the AVX2 kernels, on both the aligned and the unaligned branch. |
| YuvConvert.ABGRToI420 | src/deps/yuv/yuv.c:602-648 | Its result is the converted frame in ABGR order through the SSSE3 kernels. |
| YuvConvert.ConvertedIsI420 | src/deps/yuv/yuv.c:424-506 | Whole frame refinement: with disjoint rows every Y, U and V byte equals the scalar specification of its pixels, and no byte outside the width and (width+1)/2 columns of the rows changes. |
| YuvConvert.LumaByteAt | src/deps/yuv/yuv.c:424-506 | In an I420 image byte (x, y) of the Y plane is the luma of the four source bytes of pixel (x, y), with every address written out. |
| YuvConvert.ChromaBytesAt | src/deps/yuv/yuv.c:424-506 | Bytes (c, r) of the U and V planes are the chroma of the blend of pixels (2c, 2r) to (2c+1, 2r+1), the last column and row counting twice in odd sizes. |
| YuvConvert.SamePictureSamePlanes | src/deps/yuv/yuv.c:477-648 | Two sources that show the same picture, in whatever layout, stride and position, give equal memory; through different row functions when the U and V rows of a pair lie apart. |
| YuvConvert.VectorPathsAgree | src/deps/yuv/yuv.c:477-506 | ABGRToI420 (SSSE3) on a picture with red and blue exchanged gives the bytes of ARGBToI420 (AVX2) on the picture, for every size and all strides that keep the two chroma rows of a pair apart. |
| YuvConvert.NegativeHeightFlips | src/deps/yuv/yuv.c:261-269 | Converting with height -h equals converting the row-reversed picture with height h. |
| EncoderPlanes.RowsApartIffEven | src/cge/cge/video_encoder.cpp:570-584 | The planes as the encoder lays them out (uv stride width>>1, planes at w*h and w*h+(w*h>>2)) have disjoint rows if and only if width and height are even. |
| EncoderPlanes.BufferFits | src/cge/cge/video_encoder.cpp:787-788 | The frame buffer of 4*w*h bytes holds every row, for odd sizes as well. |
| EncoderPlanes.OddSizeHasNoImage | src/cge/cge/video_encoder.cpp:570-584 | For an odd width or height there is a picture of which no memory at all is the I420 image in that layout. |
| EncoderPlanes.ImageIffEven | src/cge/cge/video_encoder.cpp:570-584 | The encoder's frame is the I420 image of every picture if and only if width and height are even, whatever the pitch. |
| EncoderPlanes.EncoderLuma | src/cge/cge/video_encoder.cpp:570-584 | In a frame of even size the luma of pixel (x, y) stands at y*w+x of the buffer. |
| EncoderPlanes.EncoderChroma | src/cge/cge/video_encoder.cpp:570-584 | And the U sample of four pixels at w*h+r*(w/2)+c, the V sample w*h/4 behind it. |
| RtlString.RtlAnsiIndexOf | src/cgh/EasyHook/DriverShared/Rtl/string.c:54-70 | The first position of the character, -1 exactly when it does not occur. |
| RtlString.RtlAnsiSubString | src/cgh/EasyHook/DriverShared/Rtl/string.c:72-108 | The length and text of the cut, with its end computed in 32 bits, and -1 where the target is too small. |
| RtlString.RtlAnsiHexToLongLong | src/cgh/EasyHook/DriverShared/Rtl/string.c:111-144 | The value is that of the digits behind an optional 0x within the first len characters; 0 when another character comes, the largest 64-bit value when a digit would not fit. |
| RtlString.HexFoldIs | src/cgh/EasyHook/DriverShared/Rtl/string.c:111-144 | Of any text: the largest 64-bit number when the digits it starts with do not fit; else 0 when another character follows them, and their value when none does. |
| RtlString.DigitsAre | src/cgh/EasyHook/DriverShared/Rtl/string.c:119-131 | The sixteen digits, in both cases, and their values. |
| RtlString.PrefixSkipped | src/cgh/EasyHook/DriverShared/Rtl/string.c:111-116 | 0x and 0X are skipped and count for the length. |
| RtlString.HexRoundTrip | src/cgh/EasyHook/DriverShared/Rtl/string.c:111-144 | Parsing the text the listing prints for a number below 2^63 gives that number. |
| RtlString.RtlLongLongToUnicodeHex | src/cgh/EasyHook/DriverShared/Rtl/string.c:184-210 | The buffer holds the sixteen upper-case digits of the value and the terminator. |
| RtlString.RtlAnsiDbgHexToLongLong | src/cgh/EasyHook/DriverShared/Rtl/string.c:146-182 | Accepts exactly texts with enough digits and returns their unsigned value. |
| RtlString.UpperHexRoundTrip | src/cgh/EasyHook/DriverShared/Rtl/string.c:146-210 | Printing any value and reading it back gives the value. |
| X64.SoundDecoderExists | src/cgh/EasyHook/DriverShared/LocalHook/reloc.c:33-64 | The assumptions made about the disassembler on the windows it decodes are consistent: one small decoder satisfies them on every window. |
| Reloc.LhRoundToNextInstruction | src/cgh/EasyHook/DriverShared/LocalHook/reloc.c:66-108 | The loop returns the sum of instruction lengths that first covers the size, or fails at an undecodable instruction. |
| Reloc.RoundIsLeastBoundary | src/cgh/EasyHook/DriverShared/LocalHook/reloc.c:66-108 | That sum is the least instruction boundary at or behind the size asked for, at most 14 beyond it, and it fails exactly when no such boundary can be reached. |
| Reloc.ReadListing | src/cgh/EasyHook/DriverShared/LocalHook/reloc.c:190-240 | The text scan returns the displacement ParseRip describes: none without "[rip", without sign and digits, or when it is zero. |
| Reloc.ListingParses | src/cgh/EasyHook/DriverShared/LocalHook/reloc.c:190-240 | On the listing of any decoded instruction the scan finds a displacement if and only if the operand is rip-relative without segment and not zero, and then it is the encoded one. |
| Reloc.FindField | src/cgh/EasyHook/DriverShared/LocalHook/reloc.c:241-266 | The offset found is the only one in [1, len-4] whose four bytes equal the displacement; 0 when none or several match. |
| Reloc.LhRelocateRIPRelativeInstruction | src/cgh/EasyHook/DriverShared/LocalHook/reloc.c:146-300 | The method does what Fixup says: on success the copy differs in exactly the displacement field, otherwise the buffer is unchanged. |
| RelocMeaning.FixupFindsField | src/cgh/EasyHook/DriverShared/LocalHook/reloc.c:239-291 | On success the field found is the real displacement field of the instruction, so only it changes. |
| RelocMeaning.MovedAction | src/cgh/EasyHook/DriverShared/LocalHook/reloc.c:268-291 | The fixed-up copy at its new address performs the same action on the same effective address. |
| Reloc.RelocationFits | src/cgh/EasyHook/DriverShared/LocalHook/reloc.c:356-514 | From the start of the loop the outcome is never out of room; on success it ends exactly at the boundary the caller rounded to and has emitted at most 39 bytes, below the 100 reserved. |
| Reloc.LhRelocateEntryPoint | src/cgh/EasyHook/DriverShared/LocalHook/reloc.c:302-521 | The loop over the instructions does what Relocated says: emitted bytes, size and status, rest of the buffer unchanged. |
| RelocVerdict.RefusedIff | src/cgh/EasyHook/DriverShared/LocalHook/reloc.c:356-514 | An entry point is refused if and only if one of its instructions has an obstacle, told from its machine code (a conditional jump, a transfer into the entry point, a rip displacement found twice or out of reach), and with the status of the first one. |
| RelocVerdict.NoBranchIsMoved | src/cgh/EasyHook/DriverShared/LocalHook/reloc.c:420-438 | No instruction of a relocated entry point starts with 70 to 7F, E3 or 0F 80 to 0F 8F, with address-size prefixes in front or without. |
| RelocVerdict.UnobstructedIsMoved | src/cgh/EasyHook/DriverShared/LocalHook/reloc.c:356-514 | Conversely every entry point without such a jump, without a transfer into itself and with every shown rip displacement unique and in reach is relocated. |
| RelocMeaning.RewrittenActions | src/cgh/EasyHook/DriverShared/LocalHook/reloc.c:443-475 | The rewritten form of a call or jump loads rax with the target and goes there. |
| RelocMeaning.RelocationPreservesMeaning | src/cgh/EasyHook/DriverShared/LocalHook/reloc.c:302-521 | For every entry point that the disassembler reads as `X64.SoundCode` says, whose instructions that control reaches are all handled and whose relocation succeeds, the buffer followed by the E9 jump back has the same effects in the same order and the same continuation as the original bytes, up to rax before rewritten transfers and the return address a rewritten call pushes. |
| RelocMeaning.CallIsRelocated | src/cgh/EasyHook/DriverShared/LocalHook/reloc.c:401-475 | The premises of the theorem can be met together: a concrete entry point starting with a call is relocated and planted under a sound decoder. |
| HookAllocation.LhAllocateHook | src/cgh/EasyHook/DriverShared/LocalHook/install.c:104-290 | Fails for lack of memory exactly when no tried page is free, never for reach or room; otherwise the code behind the trampoline, jump back included, is at most 44 bytes and replaces the entry point's bytes whenever these are handled. |
| RelocLimits.KeptIffHandled | src/cgh/EasyHook/DriverShared/LocalHook/reloc.c:356-514 | One moved instruction keeps its meaning if and only if it is handled: zero or segmented rip operands, LOOP and other unrewritten relative branches, and most instructions behind 0x67 do not. |
| RelocLimits.MeaningKeptIffHandled | src/cgh/EasyHook/DriverShared/LocalHook/reloc.c:302-521 | A relocated entry point, read as `X64.SoundCode` says, means what the original meant if and only if every instruction that control reaches in it is handled; control does not go on behind jumps, returns, indirect jumps and traps. |
| RelocExamples.ZeroDisplacement | src/cgh/EasyHook/DriverShared/LocalHook/reloc.c:239-240 | mov eax,[rip+0] is relocated successfully and means something else afterwards. |
| RelocExamples.LoopCopied | src/cgh/EasyHook/DriverShared/LocalHook/reloc.c:426-438 | The same for a LOOP, which is copied with its displacement. |
| RelocExamples.PrefixedCall | src/cgh/EasyHook/DriverShared/LocalHook/reloc.c:401-413 | The same for 67 E8, whose displacement is read as 16 bits. |
| RelocExamples.PrefixedRip | src/cgh/EasyHook/DriverShared/LocalHook/reloc.c:369-376 | The same for 67 8B 05, which arrives without its prefix. |
| RelocExamples.ReturnKept | src/cgh/EasyHook/DriverShared/LocalHook/reloc.c:239-240 | ret; mov eax,[rip+0] is relocated and keeps its meaning, although its second instruction is not handled. |
| RelocLimits.NarrowMisses | src/cgh/EasyHook/DriverShared/LocalHook/reloc.c:401-413 | The 16-bit reading of a 0x67 E8/E9 displacement never yields the real target. |
| RelocLimits.CopyShifts | src/cgh/EasyHook/DriverShared/LocalHook/reloc.c:500-507 | An instruction that mentions its own address means something else when copied unchanged to any other address. |
| RelocLimits.PrefixDropped | src/cgh/EasyHook/DriverShared/LocalHook/reloc.c:369-376 | A prefixed rip-relative instruction arrives without its prefix. |
| PageSearch.LhAllocateMemoryEx | src/cgh/EasyHook/DriverShared/LocalHook/alloc.c:136-168 | The search ends; it fails only if no tried address is free, and otherwise returns the page with the fewest steps, ahead before behind, strictly inside the interval. |
| PageSearch.TriedIff | src/cgh/EasyHook/DriverShared/LocalHook/alloc.c:129-168 | The addresses tried are exactly those a whole number of pages from the entry point, less than 0x7FFFFF00 away and strictly inside the application range. |
| PageSearch.FailsIffNoneFree | src/cgh/EasyHook/DriverShared/LocalHook/alloc.c:136-168 | The search fails if and only if none of these is free. |
| PageSearch.TriedIsNear | src/cgh/EasyHook/DriverShared/LocalHook/alloc.c:129-168 | Every page the search can return lies within 0x7FFFF000 of the entry point. |
| PageSearch.NeverOutOfReach | src/cgh/EasyHook/DriverShared/LocalHook/install.c:263-290 | On such a page the jump into the trampoline, the jump back and every address delta of the relocation fit 32 bits. |
| PageSearch.EntryIsShort | src/cgh/EasyHook/DriverShared/LocalHook/reloc.c:66-108 | The entry size is in [5, 20), so the assertion on it never fires. |
| HookRegistry.HookRegistry.LhInstallHook | src/cgh/EasyHook/DriverShared/LocalHook/install.c:345-553 | Exact new state of lists, slot table, code and identity counter for success, no free slot, out of reach and an associated handle; the handle is linked exactly on success. |
| HookJumps.InstallGoesTo | src/cgh/EasyHook/DriverShared/LocalHook/install.c:455-522 | After an install the instruction at the target, as every sound decoder reads it, is five bytes long and goes to the trampoline. |
| HookJumps.InstalledIff | src/cgh/EasyHook/DriverShared/LocalHook/install.c:455-490 | A hook is planted if and only if its trampoline is in reach of 32 bits and a slot is free; otherwise nothing changes but the identity used up for want of a slot. |
| HookRegistry.HookRegistry.LhUninstallHook | src/cgh/EasyHook/DriverShared/LocalHook/uninstall.c:31-103 | The new state is Uninstall of the old one for a linked handle, else the old state; every pointer followed is a live record. |
| HookRegistry.HookRegistry.LhUninstallAllHooks | src/cgh/EasyHook/DriverShared/LocalHook/uninstall.c:110-153 | The new state is UninstallAll of the old one; only handles of dropped hooks stay linked. |
| HookRegistry.HookRegistry.LhWaitForPendingRemovals | src/cgh/EasyHook/DriverShared/LocalHook/uninstall.c:157-249 | The nested loops compute Wait: new state, timeout flag, time slept and freed hooks. |
| HookRegistry.HookRegistry.AwaitIdle | src/cgh/EasyHook/DriverShared/LocalHook/uninstall.c:215-241 | The inner loop polls the counter until it is not positive or the time is used up. |
| HookRuns.InstallKeeps | src/cgh/EasyHook/DriverShared/LocalHook/install.c:467-538 | Installing on a target clear of the live windows keeps the registry invariant and adds exactly the new hook. |
| HookRuns.UninstallKeeps | src/cgh/EasyHook/DriverShared/LocalHook/uninstall.c:55-92 | Uninstalling any handle keeps the invariant and the set of live hooks. |
| HookRuns.UninstallAllKeeps | src/cgh/EasyHook/DriverShared/LocalHook/uninstall.c:121-147 | Uninstalling all keeps the invariant and the set of live hooks. |
| HookRuns.WaitKeeps | src/cgh/EasyHook/DriverShared/LocalHook/uninstall.c:157-249 | A wait empties the removal list, keeps the invariant, and leaves exactly the installed hooks live. |
| HookRuns.WaitIsBounded | src/cgh/EasyHook/DriverShared/LocalHook/uninstall.c:171-248 | A wait sleeps at most 40 times however many hooks are pending; it frees all of them, or reports a timeout with all 40 sleeps used. |
| HookRuns.FreedWhenIdle | src/cgh/EasyHook/DriverShared/LocalHook/uninstall.c:215-231 | A hook is freed, and its slot cleared, only after its own counter was read as not positive during that wait. |
| HookRuns.RunKeeps | src/cgh/EasyHook/DriverShared/LocalHook/uninstall.c:31-249 | Every run of install, uninstall, uninstall-all and wait keeps the invariant: distinct slots and identities, disjoint lists without repetition, code patched exactly inside live windows. |
| HookRuns.CodeBytes | src/cgh/EasyHook/DriverShared/LocalHook/install.c:500-522 | Over every run from the start, a live hook's window is its jump followed by the original bytes, and every byte outside the first five of live targets is original. |
| HookJumps.LiveJumps | src/cgh/EasyHook/DriverShared/LocalHook/install.c:455-522 | Over every run from the start, the code at the target of every live hook goes to that hook's own trampoline. |
| HookRuns.SlotsAreDistinct | src/cgh/EasyHook/DriverShared/LocalHook/install.c:467-490 | Over every run, live hooks hold distinct slots marked with their distinct nonzero identities. |
| HookRegistry.HookRegistry.RemoveFromList | src/cgh/EasyHook/DriverShared/LocalHook/uninstall.c:77-90 | The search stops at the first record equal to the hook and makes the list head its successor, so the records before it leave the list too; the head stays when the hook is not found. |
| HookRuns.FinalizeLeavesDropped | src/cgh/EasyHook/DriverShared/LocalHook/uninstall.c:252-267 | After uninstall-all and wait the hooks still patched are exactly the lost ones; the code is original if and only if none of these changed it. |
| HookRuns.NewestFirstRestoresCode | src/cgh/EasyHook/DriverShared/LocalHook/uninstall.c:252-267 | If hooks are uninstalled newest first, finalizing restores every byte, over every run. |
| HookStacks.RestoredIffNewestFirst | src/cgh/EasyHook/DriverShared/LocalHook/uninstall.c:190-213 | Any number of hooks stacked on one target, among any other pending hooks: a wait restores the original bytes if and only if they stand on the removal list newest first. |
| HookStacks.InstallStacks | src/cgh/EasyHook/DriverShared/LocalHook/install.c:500-522 | Installing once more on a target puts one more hook on its stack. |
| HookStacks.UninstallAllLosesStack | src/cgh/EasyHook/DriverShared/LocalHook/uninstall.c:121-147 | Uninstall-all and a wait do not restore a target whose two newest hooks stand in installation order on a list with any others. |
| HookStacks.UninstallAllLeavesOlder | src/cgh/EasyHook/DriverShared/LocalHook/uninstall.c:121-147 | From any state of the registry: after two installs on one target, uninstall-all and a wait leave exactly the older jump there. |
| HookStacks.UninstallOrderDecides | src/cgh/EasyHook/DriverShared/LocalHook/uninstall.c:77-92 | Uninstalled one by one with one wait behind both, the target of two stacked hooks is restored if and only if the older was uninstalled first. |
| HookStacks.ChangedHookIsDropped | src/cgh/EasyHook/DriverShared/LocalHook/uninstall.c:200-240 | A pending hook whose target somebody else has patched is not freed and keeps its slot, and the wait is otherwise the wait without it: same code, same time, no timeout of its own. |
| HookSteps.StepKeepsWorld | src/cgh/EasyHook/DriverShared/LocalHook/install.c:462-538 | Every single step of an install (back up, claim a slot, patch, put on the list), of an uninstall, an uninstall-all and a wait (pop, restore, release or give up) keeps the invariant of lists, slots and code, with any number of calls under way. |
| HookSteps.InstallIsMoves | src/cgh/EasyHook/DriverShared/LocalHook/install.c:455-538 | An uninterrupted install is a run of its steps, of the first two when no slot is free, and of the first alone when the trampoline is out of reach. |
| HookSteps.InterleavingsKeep | src/cgh/EasyHook/DriverShared/LocalHook/uninstall.c:31-249 | So does every interleaving of these steps. |
| HookSteps.InterleavedCodeBytes | src/cgh/EasyHook/DriverShared/LocalHook/uninstall.c:31-249 | Over every interleaving from the start, a hook that is patched, listed or not, and not yet restored has its jump and the original bytes at its target; every other byte is original. |
| HookJumps.InterleavedJumps | src/cgh/EasyHook/DriverShared/LocalHook/install.c:455-538 | Over every interleaving from the start, the code at the target of every patched hook, listed or not, goes to its own trampoline. |
| HookSteps.WaitIsMoves | src/cgh/EasyHook/DriverShared/LocalHook/uninstall.c:171-248 | An uninterrupted wait is a run of its pops, restores and releases. |
| HookChains.RunKeepsChains | src/cgh/EasyHook/DriverShared/LocalHook/install.c:500-522 | Over every run that may stack hooks on their targets: at each target stands a chain of jumps, each backing up the one below and the lowest the original bytes; all other bytes are original. |
| HookJumps.NewestJumps | src/cgh/EasyHook/DriverShared/LocalHook/install.c:455-522 | Over every such run from the start, a target with hooks on it leads to the trampoline of the newest. |
| HookChains.FinalizeRestoresTarget | src/cgh/EasyHook/DriverShared/LocalHook/uninstall.c:121-249 | In every such state, uninstall-all and a wait restore a target if and only if the hooks below its newest one are pending newest first and the newest is pending in front of them or still listed. |
| HookChains.FinalizingRestoresIff | src/cgh/EasyHook/DriverShared/LocalHook/uninstall.c:252-267 | Over every such run from the start, finalizing restores every byte of code if and only if that holds at each target. |
| Barrier.AclContains | src/cgh/EasyHook/DriverShared/LocalHook/barrier.c:309-327 | True exactly for the entries in use. |
| Barrier.IsThreadIntercepted | src/cgh/EasyHook/DriverShared/LocalHook/barrier.c:333-396 | In each of the four cases of exclusive and inclusive lists: the thread is on no exclusive list and on every inclusive one. |
| BarrierUnit.BarrierUnit.TlsGetCurrentValue | src/cgh/EasyHook/DriverShared/LocalHook/barrier.c:142-185 | The slot of the thread, or -1 when it has none. |
| BarrierUnit.BarrierUnit.TlsAddCurrentThread | src/cgh/EasyHook/DriverShared/LocalHook/barrier.c:77-135 | Claims a free slot for an unknown thread, fails exactly when none is free. |
| BarrierUnit.BarrierUnit.TlsRemoveCurrentThread | src/cgh/EasyHook/DriverShared/LocalHook/barrier.c:191-225 | Clears the thread's slot and nothing else. |
| BarrierUnit.BarrierUnit.AcquireSelfProtection | src/cgh/EasyHook/DriverShared/LocalHook/barrier.c:254-281 | Succeeds exactly for a known, unprotected thread and then protects it. |
| BarrierUnit.BarrierUnit.LhBarrierIntro | src/cgh/EasyHook/DriverShared/LocalHook/barrier.c:730-857 | New table and result are those of Intro, on every branch including the failed allocation and the assertions. |
| BarrierUnit.BarrierUnit.LhBarrierOutro | src/cgh/EasyHook/DriverShared/LocalHook/barrier.c:863-905 | New table and returned address are those of Outro. |
| BarrierUnit.BarrierUnit.LhBarrierGetReturnAddress | src/cgh/EasyHook/DriverShared/LocalHook/barrier.c:486-518 | The saved return address while a handler context is current, else nothing. |
| BarrierUnit.BarrierUnit.LhBarrierGetCallback | src/cgh/EasyHook/DriverShared/LocalHook/barrier.c:449-479 | The callback of the hook while a handler context is current, else nothing. |
| BarrierRuns.CallRefines | src/cgh/EasyHook/DriverShared/LocalHook/barrier.c:730-905 | One call of any thread on the flat table refines the same call on a stack of handler frames per thread and keeps the refinement. |
| BarrierEntries.GrantedIff | src/cgh/EasyHook/DriverShared/LocalHook/barrier.c:730-857 | An entry is granted if and only if the loader lock is free, the thread has room (new with a free slot and memory, or known with a table and not inside a handler of the hook), and each list is exclusive without it or inclusive with it; it crashes exactly for a known thread without table and is refused otherwise. |
| BarrierEntries.EntryAssertsIff | src/cgh/EasyHook/DriverShared/LocalHook/barrier.c:769-784 | For any hook at all, the assertion on the slot fires exactly for an index from 1024 on, unless the thread is turned away before it. |
| BarrierEntries.ExitAssertsIff | src/cgh/EasyHook/DriverShared/LocalHook/barrier.c:863-905 | For any exit at all: it asserts exactly for an unknown thread, a thread outside the hook's handler or a used place for the return address, and crashes exactly without a table entry. |
| BarrierRuns.RunRefines | src/cgh/EasyHook/DriverShared/LocalHook/barrier.c:730-905 | Every interleaving of well-nested entries, exits and detaches gives the results the stacks give: same entries admitted, same return addresses. |
| BarrierRuns.AssertionsNeverFire | src/cgh/EasyHook/DriverShared/LocalHook/barrier.c:730-905 | No assertion of the barrier fires in any such run from the start. |
| BarrierEntries.AttachedProcessIntercepts | src/cgh/EasyHook/DriverShared/LocalHook/barrier.c:670-690 | After any run from the attach: a thread with room is let into a hook with an exclusive list exactly when it is not on it, and with an inclusive list exactly when it is. |
| BarrierRuns.NeverTwice | src/cgh/EasyHook/DriverShared/LocalHook/barrier.c:799-823 | Between two entries the table grants one thread for one hook, it has returned or detached the thread from the first: no thread is twice inside the handler of one hook. |
| BarrierRuns.InnerRunKeepsFrames | src/cgh/EasyHook/DriverShared/LocalHook/barrier.c:730-905 | Whatever runs inside a handler leaves the frames below it alone. |
| BarrierRuns.ExitRestoresEntry | src/cgh/EasyHook/DriverShared/LocalHook/barrier.c:863-905 | After any well-nested run inside a handler, its exit returns to the address its own entry saved. |
| BarrierRuns.ReturnAddressOnlyAtFirst | src/cgh/EasyHook/DriverShared/LocalHook/barrier.c:845-889 | Return address and callback of the running handler are available exactly until a nested or refused entry has cleared the handler context. |
| BarrierNesting.IntroIsTransparent | src/cgh/EasyHook/DriverShared/LocalHook/barrier.c:769-857 | While an entry holds self protection, entries nested in it by its own thread are refused; its outcome, and the results of every other thread, are those of the run without them. |
| BarrierNesting.OutroIsTransparent | src/cgh/EasyHook/DriverShared/LocalHook/barrier.c:863-905 | The same for an exit. |
| HookedProcess.CallsAreLegal | src/cgh/EasyHook/DriverShared/ASM/HookSpecific_x64.asm:190-285 | Threads running through trampolines of a registry that changes meanwhile: the next barrier call is one the run theorems speak of, innermost exits and no slot of an active handler reused. |
| HookedProcess.ComesByTheJump | src/cgh/EasyHook/DriverShared/LocalHook/install.c:455-522 | Wherever a thread can come to a hook, the code at the hook's target leads to its trampoline and nowhere else. |
| HookedProcess.ProcessStep | src/cgh/EasyHook/DriverShared/ASM/HookSpecific_x64.asm:190-330 | Every step of a thread (jump, increment, test for a handler, entry, jump to the handler, exit, decrement, leaving the page) or of the registry keeps slots, code, execution counters and barrier stacks in step. |
| HookedProcess.FreeIsSafeIff | src/cgh/EasyHook/DriverShared/LocalHook/uninstall.c:215-231 | When its counter lets a wait free a hook, no thread is between increment and decrement on its page; the page is deserted if and only if no thread is in front of the increment or behind the decrement either. |
| HookedProcess.StrandedIffFreed | src/cgh/EasyHook/DriverShared/LocalHook/uninstall.c:215-231 | A thread loses the memory it runs on exactly when a wait frees its hook, and then the counter did not cover it. |
| HookedProcess.FreedWhileLeaving | src/cgh/EasyHook/DriverShared/ASM/HookSpecific_x64.asm:206-226 | From every state with an installed, unvisited hook and nothing pending: a thread is counted in, the hook is uninstalled, the thread is counted out without an entry, and the hook is freed while the thread still runs its page. |
| HookedProcess.FreedWhileComing | src/cgh/EasyHook/DriverShared/ASM/HookSpecific_x64.asm:186-210 | The same for a thread that has taken the planted jump and not reached the increment. |
| HookHandlers.NeverStartsAgain | src/cgh/EasyHook/DriverShared/LocalHook/uninstall.c:31-67 | Once a hook has been uninstalled, no thread goes from its trampoline to its handler any more, over every run and whatever is installed meanwhile. |
| HookHandlers.JumpsNowhereIff | src/cgh/EasyHook/DriverShared/ASM/HookSpecific_x64.asm:212-310 | A thread whose entry was granted jumps to no address if and only if the hook was uninstalled after the test for its handler; then the thread has no step left, and no wait can free the hook. |
| HookHandlers.UninstalledUnderThread | src/cgh/EasyHook/DriverShared/ASM/HookSpecific_x64.asm:212-310 | A run to that point from every state with an installed hook, nothing pending and a thread the barrier lets in. |
| HookedProcess.CallsAreLegalRun | src/cgh/EasyHook/DriverShared/ASM/HookSpecific_x64.asm:190-285 | The barrier calls of every run of the process form a legal run. |
| HookedProcess.NoAssertionInProcess | src/cgh/EasyHook/DriverShared/ASM/HookSpecific_x64.asm:190-285 | So no assertion of the barrier fires in any run of the process from its start. |
| BarrierRuns.FailedAllocationCrashesNextEntry | src/cgh/EasyHook/DriverShared/LocalHook/barrier.c:786-799 | After a failed allocation of its table, the thread's next entry dereferences NULL. |
| BarrierRuns.CrashesIffBroken | src/cgh/EasyHook/DriverShared/LocalHook/barrier.c:786-799 | An entry crashes if and only if its thread is in that state. |
| BarrierRuns.ReusedSlotBreaksExit | src/cgh/EasyHook/DriverShared/LocalHook/barrier.c:799-893 | If a hook's slot goes to another hook while a handler runs, the new hook is let in over the frame and the old exit fails its assertion. |
| Framing.SplitEmitted | src/cge/cge/engine.cpp:179-192 | Splitting a run of packages by their length prefix gives the payloads back, and whatever incomplete package follows. |
| Framing.SizeInNetworkOrder | src/cge/cge/game_session.cpp:252-255 | The size field is read with its first byte weighing most. |
| GameSession.GameSession.ServeClient | src/cge/cge/game_session.cpp:232-292 | The loop over parse states computes Serve: buffer, states, effects, and whether it waits, rejects or never returns. |
| GameSession.GameSession.ServeClientLogin | src/cge/cge/game_session.cpp:294-337 | Rejects packets below 68 bytes and verification sizes above 32, else records the login; the session is authorizing from the size check on. |
| GameSession.GameSession.OnRead | src/cge/cge/game_session.cpp:191-210 | A read appends its bytes and serves; a session that waits is at rest again. |
| Inbound.ChunksDoNotMatter | src/cge/cge/game_session.cpp:232-292 | From any resting session, every way of cutting a stream into reads gives the same effects, state and residue as one read; for sessions past the login without any condition on the stream. |
| Inbound.DeterminedIffWhole | src/cge/cge/game_session.cpp:246-288 | What a new session has done after any number of bytes depends on those bytes alone if and only if no package before the login is empty or has a size whose 32-bit total wraps. |
| Inbound.SpinsForever | src/cge/cge/game_session.cpp:257-288 | After any number of turns a package whose 32-bit total is 0 is still there and is accepted again: the loop does not end. |
| Inbound.SpinsIffStalls | src/cge/cge/game_session.cpp:257-288 | Past the login the loop fails to end if and only if walking the bytes by their 32-bit totals meets a whole package of total 0. |
| Inbound.NewSessionSpinsIffStalls | src/cge/cge/game_session.cpp:257-288 | Before the login likewise, the walk ending at a rejected login and going on by the bytes alone behind an accepted one. |
| Inbound.LoginArrivesInAnyChunks | src/cge/cge/game_session.cpp:279-337 | A new session sent packages that are no login (first byte not 0) and then one of at least 68 bytes with byte 35 at most 32 asks the user manager exactly once, with its first 68 bytes, is then authorizing and lets later packages pass, however reads cut the stream. |
| Inbound.BadLoginIsRejected | src/cge/cge/game_session.cpp:294-312 | A login of fewer than 68 bytes, or with byte 35 above 32, ends the session without asking anybody, whatever follows. |
| Inbound.PacketsArriveInAnyChunks | src/cge/cge/game_session.cpp:263-276 | An authorized session replays the control packets sent to it whole, once each and in order, however reads cut the stream, and keeps the incomplete rest. |
| GameSession.GameSession.Write | src/cge/cge/game_session.cpp:77-109 | The new outbox is that of Write: header prefixed once, queued, started only if the queue was empty. |
| GameSession.GameSession.OnWrite | src/cge/cge/game_session.cpp:212-230 | The new outbox is that of OnWrite; the queue it pops is never empty. |
| Outbound.BusyUntilEmpty | src/cge/cge/game_session.cpp:77-230 | Over every run without failure a write is outstanding exactly while the queue is not empty, and when it is empty everything queued has been sent, once and in order. |
| Outbound.NothingAfterFailure | src/cge/cge/game_session.cpp:212-230 | In every run from the start, once a write has failed nothing more is handed to the socket. |
| Outbound.WireCarriesMessages | src/cge/cge/game_session.cpp:77-109 | Over every run at most one write is outstanding, and the bytes handed to the socket split into the messages begun, in order and once each, with the codec header package in front of the first audio and first video message. |
| Encoder.Encoder.SaveHeader | src/cge/cge/encoder.h:32-46 | After any appends the header is size field, action and all pieces in order, with the size field their exact length modulo 2^32. |
| Encoder.HeaderIsPackageIffShort | src/cge/cge/encoder.h:32-46 | A receiver can split the header off as one package if and only if its payload is shorter than 2^32. |
| Encoder.Encoder.WritePacket | src/cge/cge/engine.cpp:179-192 | The buffer sent is the package of the action byte and the packet. |
| TextureSlots.TextureSlots.ShareTexture | src/cgh/capturetex/capturetex.cpp:269-347 | A missing or wrongly sized texture is replaced under a new id, then the picture is copied; a failure changes nothing. |
| TextureSlots.TextureSlots.Capture | src/cgh/capturetex/capture_dxgi_d3d11.cpp:137-187 | A successful capture is the picture, the timestamp and the count; a failed one leaves the state. |
| TextureSlots.TextureSlots.GetSharedTexture | src/cge/cge/video_encoder.cpp:668-793 | Undisturbed, the slot chosen, the refreshed cache and the texture to read are those of the consumer's steps in their order. |
| TextureSlots.CapturedIsRun | src/cgh/capturetex/capture_dxgi_d3d11.cpp:137-187 | An undisturbed capture is the run of the producer's single steps in the order the code takes them. |
| Handoff.StepKeeps | src/cge/cge/video_encoder.cpp:668-760 | Every single step of producer or consumer (pick, compare ids, read the name, open, record the id), in any interleaving, keeps the invariant of slots, timestamps, textures and cache. |
| Handoff.PickIsLatest | src/cge/cge/video_encoder.cpp:668-677 | In every reachable state with a completed frame, the slot chosen is the last completed frame's, holds it whole and is not being written. |
| Handoff.HandOff | src/cge/cge/video_encoder.cpp:668-793 | Over every interleaving after the pick, as long as the producer has completed at most one frame more and not begun to write another: the texture held is the slot's own, whole with the frame picked, if and only if the consumer's cache did not hold another texture under the slot's id. |
| HandoffLimits.RecordedIffNotReplaced | src/cge/cge/video_encoder.cpp:734-751 | The texture the consumer caches is the slot's if and only if the slot's texture was not replaced between reading its name and recording its id; the id recorded is the slot's in any case. |
| HandoffLimits.NeverFooled | src/cge/cge/video_encoder.cpp:734-751 | Over every run in which no replacement falls into such an opening, no cached texture is another than its id says. |
| HandoffLimits.UndisturbedDelivers | src/cge/cge/video_encoder.cpp:668-793 | Then, under the bound of HandOff, the texture held always has the size and the pixels of the frame picked. |
| HandoffLimits.MixupRuns | src/cge/cge/video_encoder.cpp:734-751 | A run from the start, for any three frames of which the third has a new size, that ends with the first texture cached under the id of the third. |
| HandoffLimits.OldFrameForever | src/cge/cge/video_encoder.cpp:680-684 | After it, in every continuation that does not replace the slot's texture again, the consumer reads frame 1 whenever it reads the slot. |
| Handoff.SecondFrameTears | src/cgh/capturetex/capturetex.cpp:281-347 | The bound is exact: copying a second frame changes the texture held if and only if the picture kept its size and the texture is the slot's own, and then it is torn. |

## Left out

- The 32-bit build, the driver build, page protection, loader-lock checks, and the assembler
  trampoline beyond its counter and its calls of the barrier: not part of the x64 user-mode
  path, or not shown.
- The disassembler itself (udis86 is not part of this model): it is any function that has the
  properties of `X64.SoundWindow` on the windows decoded at the entry point and in the emitted
  code (`X64.SoundCode`). udis86 lacks them on some windows: runs of prefixes that reach or
  exceed 15 bytes with their instruction, and a rip-relative operand under REX.B behind 0x67,
  whose displacement it does not count. An entry point with such a window is outside the
  relocation theorems.
- RelocLimits.MeaningKeptIffHandled: leaves out reached instructions behind two or more 0x67
  prefixes; they are outside `RelocMeaning.Handled`. Jumps from elsewhere into the middle of
  the moved instructions are outside the straight-line meaning.
- RelocMeaning.RelocationPreservesMeaning: the return address a call pushes is not part of its
  action; a rewritten call pushes an address in the buffer, behind which the moved code goes
  on. Traps (int3, ud2) leave for good.
- Effects of single instructions: two instructions act the same when their code bytes agree
  up to a displacement that names the same address.
- VirtualAlloc rounding an address down to its granularity: an allocation stands where it was
  asked for.
- PageSearch.NeverOutOfReach: takes page sizes that are multiples of 4096 and records and
  trampolines that end before the execution counter in the middle of the page.
- HookAllocation.LhAllocateHook: the trampoline's own code and the fields of the record are
  not part of it; memory is read as it was before the call, and the new page lies elsewhere.
- HookRuns.RunKeeps: the identity counter is unbounded, so fewer installs than wrap a 32-bit
  counter; a target must be clear of the live windows (hooks stacked on one target are treated
  by `HookStacks` and `HookChains`); another party changing patched code is not modelled.
- HookRegistry.HookRegistry.LhInstallHook: the trampoline's address and the address of the
  new record are parameters, and pointer validity checks are left out.
- Hook records as heap objects: they are entries of a map keyed by address, which shows every
  pointer followed to be live; the memory of a hook that timed out stays allocated.
- Locks: each call of the barrier is one step but for what `BarrierNesting` nests in it. In
  `HookRuns` an install or a wait is one step; `HookSteps` takes them apart into back-up, slot,
  patch and list, and into pops, restores and releases, and lets all calls interleave. There
  the sleeps are not counted, and two installs on one target do not overlap.
- HookChains.RunKeepsChains: a new jump differs from every jump still in the chain of its
  target, also from that of a hook whose page was freed and given out again.
- HookedProcess.ProcessStep: a thread on freed memory, or sent to no address, takes no more
  steps; what it would run there is not modelled. The window of a target is written at once.
- HookJumps.InstallGoesTo: the code bytes are numbered by address from 0 on; what lies behind
  them is arbitrary.
- BarrierUnit.BarrierUnit.LhBarrierIntro: the allocation and the loader-lock test are
  parameters of the call; stack traces (begin and end) and callbacks beyond their address are
  left out.
- Pointer checks and 32-bit overflow of stride products in the converter; alignment only
  selects between the aligned and the any-width row functions.
- Login contents, the debug credential branch, the user manager, and the seven-second timers
  of the parser; the answer to a login is a change of session state between two reads.
- Replaying a control packet: the model records the packet; packets below the six bytes of
  every control structure replay nothing, as every case checks its exact size.
- GameSession.GameSession.ServeClient: a loop that would not end returns `Spinning` instead.
- GameSession.GameSession.Write: bytes of a package cut off inside its head are not read;
  every caller passes whole packages.
- Stopping a session, the set of authorized sessions, audio resampling and capture, the
  control device tables, the debug helpers and module enumeration: small tables or thin
  wrappers around foreign code.
- Handoff.HandOff: the comparison of the two timestamps is one step, a CopyResource is finished
  when the call returns (also the producer's, before it writes the timestamp), an id is read
  and written at once, ticks grow strictly from above zero, and the consumer first looks when a
  frame has been completed. There is one captured process, so its instance id is left out, as
  are the staging texture, releasing all textures, and the pixel-buffer variant, whose resize
  notifications advance the count without a frame.
- Direct3D, FFmpeg, sockets, events, logging and the file system: foreign code or I/O; a
  creation or allocation that can fail is a parameter.
