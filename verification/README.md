# lfdk2 in Dafny

lfdk2 is a firmware debugger for Linux: a kernel driver (`lfdd`) that reads and writes PCI and PCI Express
configuration space, and an ncurses front end (`lfdk`) that scans the buses and edits registers, memory and
ports. This project models the parts where the two meet and proves what they promise each other, from a
key press down to a configuration byte.

Verify with `dafny verify dfyconfig.toml` (Dafny 4.11).

## What is modelled

**The access engine** (`lfdd/libpci_x86.c`). The hardware is explicit: one configuration space of dwords,
reached through the CF8/CFC port pair and through the ECAM region of physical memory; other physical memory;
the index register; and the one cached 256-byte window, which knows only its own physical start. `Driver` is
the accessors with their globals, `ReadResult`, `WriteResult` and `BulkByte` are their specification.

- `Bits.dfy`, `Words.dfy`: C's masks and shifts on 8 to 64-bit values; dwords, their byte lanes, and the map
  of bytes a client has in mind.
- `AddressCodec.dfy`: the two encodings of bus, device, function and register, both invertible.
- `PcixDriver.dfy`: the accessors; `ConfigStore.dfy`: both mechanisms are one map of bytes.
- `CachedWindow.dfy`: the window cache never shows, for any requests whose MMIO bulk reads are 256-aligned.
- `PortInterleaving.dfy`: any number of threads in the port branch, step by step: linearizable, with every call
  taking effect once and in its thread's order, and never stuck: a call that finds the lock free returns after
  6, 7 or 132 steps of its own, as the accessor would.

**The window manager** (`lfdk/lfdk.c`). `Desk.dfy` has its steps as functions on the pool, the LIFO message
box, the foreground handle and the history of callbacks; `WindowManager.dfy` is the class with the source's
loops, proved to compute them. `p_cur_wnd`, which the source initialises once per drain and not once per
message, is part of the state of a drain.

- `FocusTheorems.dfy`: one foreground window, dispatch, the order of the drain, alternating focus callbacks.
- `MainLoop.dfy`: whole runs with lfdk's modules; exactly one scan. `Lifecycle.dfy`: each window is
  initialised, started, destroyed and exited once, in order. `KeyRouting.dfy`: a shortcut key brings its window
  to the front, any other key reaches the window in front, each window is painted once. `LfdkPool.dfy`: the pool
  lfdk builds, its modules registered in the order `lfdk/Makefile` links them (constructors are taken to run in
  that order).

**The editors** (`lib_pci_dev.c`, `lib_pci_list.c`, `libmem.c`, `libio.c`). `HexInput.dfy` is what they share
(cursor, modes, the shifted digit buffer), `PageEditors.dfy` MEM-SPACE and IO-SPACE, `PciScreens.dfy` PCI-DEV
and PCI-LIST with the requests PCI-DEV issues.

**The scanner** (`lfdk/lib_pci_scan.c`). `CapabilityWalk.dfy`, `Enumeration.dfy` (bus scan and MMIO base),
`NameDatabase.dfy` and `NameReader.dfy` (pci.ids), `SelfTest.dfy` and, for what the self-test decides,
`SelfTestVerdict.dfy`.

**End to end** (`EndToEnd.dfy`, `DeviceSelection.dfy`, `ReadBack.dfy`). Enumerate a machine, wherever its RAM
ends, boot, press any keys: every request PCI-DEV issues meets the driver's preconditions, so what it reads and
writes is one map of configuration bytes. Every scan of a run sees what was written before it, and may find
another list; the one hypothesis is that it finds something. Under an aligned base given by hand that nothing
decodes the requests still pass the guard and the window cache never shows. Keys in PCI-LIST select a device of
the list, ENTER opens that device, and a value typed into PCI-DEV goes to the cell of that device and is what
the next paint shows.

**The circular list** (`lfdk/list.h`, `CircularList.dfy`). Heap nodes and pointer stores in the source's
order, against the sequence of entries.

## Results that are conditions

Where a property does not hold everywhere, the exact condition is proved.

- A cached window serves the addressed dword if and only if it is 256-aligned or about to be replaced
  (`CacheAgreesIff`); bulk reads keep it so if and only if they are served by ports, are 256-aligned, or hit
  the window (`BulkStaysValidIff`), and they return the bytes at their own address if and only if they map the
  window or it starts there (`BulkHitsIff`). `UnalignedBulkMisleads` is a run of two requests whose second answer
  is the wrong byte.
- A word written reads back for every value if and only if its address is even (`WordRoundTripIffEven`): at
  odd addresses read and write shift by different amounts.
- The RAM guard adds in 32 bits. Wherever RAM ends, it refuses a request if and only if its window does not
  reach past RAM or is the last one below 4 GiB (`RefusedIff`). With RAM above 4 GiB that is every request; the
  scan's comparison of the two mechanisms then gives no device an MMIO base (`PresentGetsBaseIsServed`).
- The cast of an ECAM address to 32 bits loses nothing if and only if the base leaves 256 MiB below 4 GiB
  (`EcamFitsIff`).
- A drain of focus, transfer and release messages keeps the focus callbacks alternating if and only if no
  window asks for the focus while nobody has it and a current window with both focus callbacks is left over
  (`DrainAlternatesIff`); `ReleaseTellsTwice` is a box on which one window is told of its loss twice. PCI-SCAN and
  the baseboard screen have no focus callbacks; the theorem asks nothing of the pool.
- A message gives a destroyed window a state again if and only if it transfers the focus to it, or from it
  because it is the current window left over (`DestroyedRevivesIff`); `DestroyedIsRevived` is such a box.
- A run scans exactly once if and only if no key after the first selects PCI-SCAN (`OneScanIff`). Key code 0 can:
  PCI-SCAN, PCI-DEV and the baseboard screen have 0 as their shortcut, and a key selects the first of them in
  the pool that is in the background. In lfdk's own pool that is PCI-SCAN if and only if PCI-DEV is in front
  (`OneScanIffNoZeroOverDev`); `TwoScans` is such a run.
- Keys in PCI-LIST keep the shared index from going below zero if and only if the list is not empty
  (`IndexStaysIff`).
- The name lookup returns a device name if and only if some line of the vendor precedes some line of the
  device (`LookupDoneIff`): `findven` is never cleared, and `UnlistedPairBorrowsName` is a database where a
  pair that is not listed gets another vendor's device name.
- The walk limited to 64 finds what unlimited following finds, on all chains that keep to n offsets, if and
  only if n is at most 65, over all functions of all machines (`WalkIsCompleteIff`). Aligned chains keep to 64;
  `UnalignedChainIsCutShort` is a function's 256 bytes with a chain of 66 offsets.
- The unchecked stores of the database reader stay in its buffer if and only if the text before the first `#` or
  newline, without tabs, has at most 512 characters (`StoresFitIff`).
- A function passes the self-test if and only if its first window reaches past RAM and MMIO finds its first and
  third dword under its base, whether the base is decoded or not (`DevicePassesIff`).
- A listed function has the base the platform decodes if and only if its chain reaches a PCIe capability, its first
  dword is not zero and its first window reaches past RAM; otherwise it has none (`ListHasRightBases`).
- The write self-test passes if and only if the register is reached through MMIO and the read is as wide as the
  write, or wider with zeros beside the written bytes (`TestOutcome`). With one width, as in every call, it
  leaves the hardware as it was whatever the outcome.

## Model

| member | source | states |
|---|---|---|
| Words.ExtractIsSelection | lfdd/libpci_x86.c:114-133 | the shift and mask of a read are a selection of bytes of the dword, at every width and offset |
| Words.MergeIsReplacement | lfdd/libpci_x86.c:284-304 | the shifts, complement and masks of a read-modify-write replace exactly the written bytes |
| Words.MergeIsByteWrite | lfdd/libpci_x86.c:312-371 | for an aligned address the modified dword, seen as bytes, is the byte map with only the written bytes changed |
| Words.ExtractIsByteRead | lfdd/libpci_x86.c:138-188 | for an aligned address the selection is the little-endian read of the byte map |
| Words.ExtractIsRead | lfdd/libpci_x86.c:138-188 | at any offset the selection is what a client reads: a word stops at the end of its dword, a dword is the one that holds the offset |
| Words.MergeIsWrite | lfdd/libpci_x86.c:312-421 | at any offset the modified dword is what a client writes: a word goes to the even offset below |
| Words.ReadAfterWrite | lfdd/libpci_x86.c:138-188 | a read returns what the last write of its width put there |
| Words.WriteBackRestores | lfdk/lib_pci_scan.c:644-662 | writing back what was read restores every byte, whatever was written in between |
| Words.WordRoundTripIffEven | lfdd/libpci_x86.c:353-364 | a word written reads back over every dword if and only if the address is even |
| AddressCodec.CalPcixAddr | lfdd/libpci_x86.c:52-77 | the or-and-shift construction computes the address, for every request |
| AddressCodec.PortAddressInverse | lfdd/libpci_x86.c:52-77 | the CF8 index has the enable bit, fits 32 bits, and its fields are the request's |
| AddressCodec.EcamAddressInverse | lfdd/libpci_x86.c:52-77 | below 4 GiB minus 256 MiB the ECAM address fits 32 bits and its fields are the request's |
| AddressCodec.AddressInjective | lfdd/libpci_x86.c:52-77 | two in-range requests of one mechanism, under any base, with one address name the same register |
| AddressCodec.EcamFitsIff | lfdd/libpci_x86.c:85-96 | the cast to 32 bits is lossless for every register if and only if the base leaves room for the whole space |
| AddressCodec.FunctionsDisjoint | lfdd/libpci_x86.c:64-74 | distinct functions own disjoint 4 KiB ranges |
| PcixDriver.Driver.MapWindow | lfdd/libpci_x86.c:94-106 | the window is mapped if there is none, remapped if the address is outside, and kept otherwise |
| PcixDriver.Driver.PortReadDword | lfdd/libpci_x86.c:108-121 | the port transaction returns the addressed dword and leaves every register, the index included, as it was |
| PcixDriver.Driver.Read | lfdd/libpci_x86.c:80-244 | the byte, word and dword reads return the selected bytes of the dword reached by either mechanism, or all ones behind the guard |
| PcixDriver.Driver.Write | lfdd/libpci_x86.c:247-421 | the byte, word and dword writes replace the selected bytes of that dword and nothing else; an unaligned dword write and a guarded one do nothing |
| PcixDriver.Driver.Read256 | lfdd/libpci_x86.c:424-489 | all 256 bytes come from consecutive dwords, index restored; a refused read changes nothing |
| ConfigStore.CacheAgreesIff | lfdd/libpci_x86.c:94-106 | an access through the cache touches the addressed dword if and only if the window is aligned or about to be replaced |
| ConfigStore.BulkStaysValidIff | lfdd/libpci_x86.c:438-449 | a bulk read keeps the window aligned if and only if it is a port read, 256-aligned, or inside the window |
| ConfigStore.UnalignedBulkMisleads | lfdd/libpci_x86.c:440-447 | a bulk read at register 0x80 and then a byte read at 0x90: the second answer is the byte at 0x110 |
| ConfigStore.BulkHitsIff | lfdd/libpci_x86.c:438-449 | an MMIO bulk read returns the bytes at its own address if and only if it maps the window or the window starts there |
| ConfigStore.RefusedIff | lfdd/libpci_x86.c:88-92 | wherever RAM ends, the guard refuses exactly the windows that do not reach past it and the last one below 4 GiB |
| ConfigStore.BulkRefusedIff | lfdd/libpci_x86.c:432-437 | a bulk read is refused exactly if it is an MMIO request whose own 256 bytes, in 32-bit arithmetic, end at or below the end of RAM |
| ConfigStore.ReadAgrees | lfdd/libpci_x86.c:80-244 | any read that is in range and not refused, at any register, returns by either mechanism what the byte map holds at its configuration offset, and changes nothing |
| ConfigStore.WriteAgrees | lfdd/libpci_x86.c:247-421 | any such write by either mechanism is a write of the byte map at its configuration offset |
| ConfigStore.BulkAgrees | lfdd/libpci_x86.c:424-489 | an aligned bulk read by either mechanism is never refused and returns the 256 bytes at its offset |
| ConfigStore.GoodOpIsPlain | lfdd/libpci_x86.c:80-489 | for naturally aligned accesses, which is what the screens issue, these are plain reads and writes of as many bytes as the width says |
| ConfigStore.OneByteMap | lfdd/libpci_x86.c:80-489 | every run that mixes both mechanisms, single accesses at any register and 256-aligned bulk reads, has the answers and the final state of reads and writes on one byte map |
| CachedWindow.ReadIsFresh | lfdd/libpci_x86.c:94-131 | a read through the cached window returns what a fresh mapping of its own address returns, and changes no store |
| CachedWindow.WriteIsFresh | lfdd/libpci_x86.c:262-306 | a write through it has the effect it has through a fresh mapping |
| CachedWindow.CacheIsInvisible | lfdd/libpci_x86.c:44-49 | every serial run, over any bases, whose MMIO bulk reads are 256-aligned, has the answers and stores of a driver without a cache |
| PortInterleaving.TraceKeepsInv | lfdd/libpci_x86.c:108-129 | every interleaving keeps mutual exclusion, the holder's knowledge of the index, and a log the serial accessors explain |
| PortInterleaving.Linearizable | lfdd/libpci_x86.c:276-308 | for any threads and any interleaving the answers and the store are those of the operations run one by one in the order of their atomic points; the index is as it was whenever the lock is free |
| PortInterleaving.EveryCallTakesEffectOnce | lfdd/libpci_x86.c:108-129 | in every interleaving a thread's logged operations, followed by the one it is in that has not taken effect, are its calls in order |
| PortInterleaving.ReturnedComesFirst | lfdd/libpci_x86.c:108-129 | what has returned by any point of a run takes effect before whatever has not taken effect by then |
| PortInterleaving.AloneReturns | lfdd/libpci_x86.c:108-129 | from every reachable system a thread that holds the lock, or finds it free, returns after exactly the steps it has left, frees the lock, and adds its own operation to the log if it was not there |
| PortInterleaving.CallAloneIsAccessor | lfdd/libpci_x86.c:108-129 | from every reachable system with a free lock, a call stepped alone returns after 6 steps (read, dword write), 7 (byte or word write) or 132 (bulk read) with the accessor's answer and configuration space, the index as it was, and nothing else changed |
| PortInterleaving.EveryoneReturns | lfdd/libpci_x86.c:276-308 | no reachable system is stuck: some schedule makes every thread return and frees the lock |
| PortInterleaving.InterleavingIsByteMap | lfdd/libpci_x86.c:459-486 | with in-range requests, single accesses at any register, the interleaving is a sequence of reads and writes of one byte map |
| WindowManager.Manager.RegisterWindow | lfdk/lfdk.c:84-98 | a window joins the pool under the next handle until 32 are in |
| WindowManager.Manager.RequestFocus | lfdk/lfdk.c:100-122 | a matching name and handle post one NEED_FOCUS unless the box is full |
| WindowManager.Manager.RequestXfer | lfdk/lfdk.c:124-159 | the target is the first window of that name; a refused request returns its error code and posts nothing |
| WindowManager.Manager.ReleaseFocus | lfdk/lfdk.c:184-206 | posts one RELEASE_FOCUS, or reports why not |
| WindowManager.Manager.RequestDestroy | lfdk/lfdk.c:161-182 | posts one DESTROY_WINDOW, or returns the error code and posts nothing |
| WindowManager.Manager.SwitchKeyPress | lfdk/lfdk.c:224-242 | the first background window with that key asks for the focus; the result says whether there is one |
| WindowManager.Manager.HandleKeyEvent | lfdk/lfdk.c:244-256 | the key goes to the first foreground window, if any |
| WindowManager.Manager.HandleInit | lfdk/lfdk.c:258-276 | init runs over the pool and stops at the first failure, with the pool as it is then |
| WindowManager.Manager.HandleStart | lfdk/lfdk.c:278-308 | the start and post-start passes move every window in the right state on |
| WindowManager.Manager.HandleMessage | lfdk/lfdk.c:323-406 | one message, with p_cur_wnd carried over, has the effect of the pure step |
| WindowManager.Manager.HandleMessages | lfdk/lfdk.c:310-411 | the drain terminates with an empty box and is the fold of the step over the posts in reverse order |
| WindowManager.Manager.PaintAll | lfdk/lfdk.c:413-434 | background windows in pool order, then the foreground one |
| WindowManager.Manager.HandleEnd | lfdk/lfdk.c:436-464 | the destroy and exit passes reach every window not in a spared state |
| WindowManager.Manager.Iterate | lfdk/lfdk.c:582-608 | one loop iteration is the composition of key, drain and paint |
| WindowManager.Manager.RunToExit | lfdk/lfdk.c:566-614 | booting, looping over any keys and shutting down computes the pure run |
| FocusTheorems.MessageKeepsOneForeground | lfdk/lfdk.c:323-406 | any message, with any left-over current window, keeps at most one foreground window, whose handle is the stored one or -1 |
| FocusTheorems.IterationKeepsOneForeground | lfdk/lfdk.c:582-608 | so does every iteration, whatever the box holds |
| FocusTheorems.BootHasOneForeground | lfdk/lfdk.c:258-308 | after the lifecycle passes no window is in front |
| FocusTheorems.InitStopsAtFailure | lfdk/lfdk.c:258-276 | a failing init leaves the windows before it initialised and the others as they were |
| FocusTheorems.DispatchesToForeground | lfdk/lfdk.c:244-256 | the first-match scan of the key dispatch finds the stored handle |
| FocusTheorems.OldestPosterWins | lfdk/lfdk.c:316-345 | with only NEED_FOCUS in the box the oldest poster ends in front |
| FocusTheorems.TransferAlternatesIff | lfdk/lfdk.c:329-343 | a transfer keeps get_focus and lost_focus alternating if and only if a window is in front, or none is left over, or the one left over lacks the callbacks |
| FocusTheorems.DrainKeepsAlternation | lfdk/lfdk.c:310-411 | drains of NEED_FOCUS and XFER keep every window's focus history alternating, starting with get_focus |
| FocusTheorems.DrainAlternatesIff | lfdk/lfdk.c:310-411 | a drain of focus, transfer and release messages keeps every history alternating if and only if no window asks for the focus while nobody has it and a current window with both callbacks is left over, in any pool |
| FocusTheorems.ReleaseTellsTwice | lfdk/lfdk.c:314-360 | a box on which a window with both callbacks is told of its loss twice, whatever callbacks the others have |
| FocusTheorems.DestroyedRevivesIff | lfdk/lfdk.c:323-406 | a message gives a destroyed window a state again if and only if it transfers the focus to it, or from it as the current window |
| FocusTheorems.DestroyedIsRevived | lfdk/lfdk.c:314-406 | a box on which a destroyed window ends in the background |
| MainLoop.IterationKeepsBetween | lfdk/lfdk.c:582-608 | for any key: one foreground window, alternation, only focus messages, at most one left in the box |
| MainLoop.RunsNeverOverflow | lfdk/lfdk.c:113-119 | over whole runs the box holds at most two of its 32 messages |
| MainLoop.BootRequestsScan | lfdk/lib_pci_scan.c:709-716 | after booting, PCI-SCAN's request for the focus is the only message |
| MainLoop.FirstDrainFrontsScan | lfdk/lfdk.c:224-242 | in the first iteration PCI-SCAN wins against any shortcut key, being the older poster |
| MainLoop.ScannedStaysIff | lfdk/lfdk.c:362-393 | an iteration after the scan leads to no second one if and only if its key does not select PCI-SCAN, even when its XFER is dropped |
| MainLoop.SelectedScansAgain | lfdk/lfdk.c:224-242 | when the key does select PCI-SCAN the same iteration scans a second time |
| MainLoop.OneScanIff | lfdk/lib_pci_scan.c:698-716 | a run scans exactly once if and only if no key after the first selects PCI-SCAN |
| MainLoop.ExactlyOneScan | lfdk/lib_pci_scan.c:698-716 | in every run of at least one iteration with no key code 0 after the first key, PCI-SCAN is painted in the foreground exactly once |
| KeyRouting.ShortcutFronts | lfdk/lfdk.c:224-242 | with no message waiting, the first background window with the key is in front after the iteration, and no handler gets the key |
| KeyRouting.OtherKeysReachFront | lfdk/lfdk.c:590-600 | a key that is nobody's shortcut reaches the handler of the window in front, once; no key reaches nobody |
| KeyRouting.PaintsEachOnce | lfdk/lfdk.c:413-434 | an iteration paints every background window in pool order and then the one in front, each once and no others |
| KeyRouting.QuitEndsRun | lfdk/lfdk.c:582-592 | the loop stops at the first q or Q |
| LfdkPool.ShortcutsInLfdk | lfdk/lfdk.c:224-242 | in every run of lfdk, once the scan is over, p, i, o and m bring PCI-LIST, IO-SPACE, CMOS-SPACE and MEM-SPACE to the front; a window in front gets its own key |
| LfdkPool.PoolIsLinked | lfdk/lib_pci_dev.c:270-278 | the seven windows lfdk registers, in link order, are a pool the theorems about runs speak of |
| LfdkPool.KeyZeroSelectsScanIff | lfdk/lfdk.c:224-242 | in lfdk a key selects PCI-SCAN if and only if it is key code 0 and PCI-DEV is in front |
| LfdkPool.OneScanIffNoZeroOverDev | lfdk/lfdk.c:582-608 | in lfdk a run scans exactly once if and only if key code 0 never comes while PCI-DEV is in front |
| LfdkPool.EnterReachesDev | lfdk/lib_pci_list.c:171-173 | three iterations from boot, the last with ENTER, bring PCI-DEV to the front after one scan |
| LfdkPool.TwoScans | lfdk/lfdk.c:224-242 | key code 0 then makes a run with two scans |
| Lifecycle.LifecycleOnceInOrder | lfdk/lfdk.c:566-614 | in every run each window's init, start, post-start, destroy and exit callbacks happen once each and in this order |
| HexInput.AppendIs | lfdk/libmem.c:292-337 | shift, mask and or keep the low digits and add the new one |
| HexInput.BufferIsQueue | lfdk/libmem.c:288-337 | for any digits and backspaces the buffer is the value of a digit queue that drops its oldest digit when full and its newest on backspace |
| HexInput.TypedPrintIsValue | lfdk/lib_pci_dev.c:286-324 | typing the digits of the fixed-width hex print of a value leaves the value |
| HexInput.PrintTypes | lfdk/lib_pci_dev.c:310-316 | the characters of a hex print, in either letter case, are keys for its digits |
| HexInput.MovesStayOnPage | lfdk/lib_pci_dev.c:326-391 | cursor moves and mode changes keep the cursor on the page and aligned to its width |
| HexInput.SidewaysMoves | lfdk/lib_pci_dev.c:347-355 | LEFT and RIGHT move by one cell, stop at the ends of the row, and undo each other |
| HexInput.NextModeKeepsPlace | lfdk/lib_pci_dev.c:371-376 | F7 doubles the width or goes back to bytes, and the cursor stays on the byte it was on |
| HexInput.CellIsByte | lfdk/lib_pci_dev.c:239 | the cell in column x and row y is byte 16 * y + x of the page |
| PageEditors.PagesClamp | lfdk/libmem.c:366-374 | page keys move by one page and stop at the ends, without wrap-around |
| PageEditors.DisplayMoves | lfdk/libmem.c:347-381 | the new row, column, width and page of each display key |
| PageEditors.TypedAddressIsPage | lfdk/libmem.c:280-310 | with the focus or after the shortcut key, typing the print of p and ENTER shows the page at 256 * p |
| PageEditors.EveryRunKeepsInv | lfdk/libmem.c:276-420 | over every sequence of keys and focus changes cursor, mode, page and buffer stay in range, and every write is one aligned value on the page it was typed on |
| PageEditors.EnterWritesQueue | lfdk/libio.c:257-320 | digits and backspaces typed at a cell, then ENTER, write the value of the digit queue at that cell |
| PageEditors.OtherKeyCancels | lfdk/libmem.c:338-342 | any other key drops what was typed, writes nothing, and leaves the editor as it was before |
| PageEditors.Screen.KeyPress | lfdk/libmem.c:276-403 | the updates in place of the MEM-SPACE and IO-SPACE key handlers compute the pure step and its write |
| PageEditors.Screen.LoseFocus | lfdk/libmem.c:413-420 | input mode and buffer are cleared |
| PciScreens.DevKeyKeepsInv | lfdk/lib_pci_dev.c:286-395 | every key in PCI-DEV keeps the cursor aligned, the page aligned and below 0x1000, and page 0 for a device without an MMIO base |
| PciScreens.ListKeyKeepsInv | lfdk/lib_pci_list.c:146-180 | every key in PCI-LIST keeps the shared index in the filled part of the array, and in the list once it is there |
| PciScreens.IndexStaysIff | lfdk/lib_pci_list.c:146-180 | no key takes the shared index below zero if and only if the list is not empty |
| PciScreens.RescanKeepsInv | lfdk/lib_pci_scan.c:296-353 | a later scan that finds more or fewer functions keeps the screens consistent |
| PciScreens.RescanOverwrites | lfdk/lib_pci_scan.c:296-353 | a scan overwrites the front of the array and keeps the rest of it, the shared index and everything else |
| PciScreens.NotRefused | lfdd/libpci_x86.c:88-92 | if register 0 of a listed function passes the guard, every register of it does |
| PciScreens.LostFocusKeepsInv | lfdk/lib_pci_dev.c:397-403 | losing the focus resets cursor, page and input, and keeps the width, the list and the shared index |
| PciScreens.DevRows | lfdk/lib_pci_dev.c:327-345 | UP and DOWN change the row, and past an edge the page of a device with an MMIO base |
| PciScreens.DevColumns | lfdk/lib_pci_dev.c:347-376 | LEFT and RIGHT change the column, F7 the width |
| PciScreens.DevSteps | lfdk/lib_pci_dev.c:357-369 | NPAGE and PPAGE go to the next and the previous device, on its first page |
| PciScreens.ListSteps | lfdk/lib_pci_list.c:150-169 | the list keys go one or 20 devices back and forth and stop at the ends of the list |
| PciScreens.RequestsNameSelected | lfdk/lib_pci_dev.c:132-140 | what is written and what is painted name the device at the shared index of the array, the byte 16 * y + x of its page, and that page |
| PciScreens.WriteIsGood | lfdk/lib_pci_dev.c:233-250 | the write PCI-DEV issues is in range, naturally aligned and not refused |
| PciScreens.PaintIsGood | lfdk/lib_pci_dev.c:135-140 | the bulk read of a paint is 256-aligned and in range |
| PciScreens.TypedValueIsWritten | lfdk/lib_pci_dev.c:286-324 | typing the print of a value and ENTER issues exactly one write, of that value at the cell under the cursor |
| PciScreens.DevEnterWritesQueue | lfdk/lib_pci_dev.c:286-324 | digits and backspaces typed at a cell, then ENTER, issue one write, of the value of the digit queue |
| PciScreens.OtherKeyCancels | lfdk/lib_pci_dev.c:317-321 | any other key drops what was typed, and nothing is written |
| PciScreens.SelectedIsDrawn | lfdk/lib_pci_list.c:47-50 | the drawn page lies inside the list, and the selected device is on it exactly if it is in the list |
| PciScreens.Screens.DevKeyPress | lfdk/lib_pci_dev.c:286-395 | the key handler on a driver updates screen and hardware as the pure step and its requests say |
| PciScreens.Screens.ListKeyPress | lfdk/lib_pci_list.c:146-180 | the key handler moves and clamps the shared index |
| EndToEnd.EveryRequestIsGood | lfdk/lib_pci_dev.c:233-250 | in every run of keys from boot whose scans find something, every request PCI-DEV issues meets the driver's preconditions |
| EndToEnd.ClientSeesOneByteMap | lfdk/lib_pci_dev.c:135-140 | hence the driver answers that run as one map of bytes would |
| EndToEnd.FromScanToByteMap | lfdk/lib_pci_scan.c:287-356 | the same with the lists the scanner delivers, each scan seeing what was written before it, on any machine that decodes the base it uses, wherever its RAM ends |
| EndToEnd.AnyBaseIsServedFresh | lfdk/lib_pci_scan.c:244-284 | for every 256-aligned base below 4 GiB, decoded or not, every request PCI-DEV issues passes the guard and is aligned, and the driver answers and stores as one without a window cache |
| EndToEnd.PresentFunctionIsFound | lfdk/lib_pci_scan.c:287-356 | with a function present at boot and no key code 0 after the first key the scans do find something, under any aligned base |
| EndToEnd.LaterScanSeesWrites | lfdk/lib_pci_scan.c:287-356 | as long as the array is not full, a later scan finds a function exactly if the byte map that the requests leave has a vendor id there |
| DeviceSelection.ListIteration | lfdk/lib_pci_list.c:146-180 | with PCI-LIST in front a key moves the shared index and issues nothing |
| DeviceSelection.SelectedIsOpened | lfdk/lib_pci_list.c:171-173 | whatever keys move about in PCI-LIST, ENTER then brings PCI-DEV to the front, which reads the first page of the device under the index they lead to |
| LfdkPool.NthDeviceIsOpened | lfdk/lib_pci_dev.c:132-140 | in lfdk, DOWN n times and ENTER open device n of the scanned list, or the last one |
| LfdkPool.NthFunctionIsOpened | lfdk/lib_pci_scan.c:287-356 | on a machine that is the n-th present function, under the base its own configuration bytes decide |
| ReadBack.DevIteration | lfdk/lfdk.c:582-608 | with PCI-DEV in front an iteration is its key handler and a paint of what that leaves |
| ReadBack.RunIsReady | lfdk/lfdk.c:566-608 | every run from boot that ends with PCI-DEV in front ends with consistent screens, a scanned list and an empty box |
| ReadBack.TypedValueIsShown | lfdk/lib_pci_dev.c:286-395 | from boot, in any run whose scans find something and that brings PCI-DEV to the front, a value typed at a cell and entered is written to byte 16 * y + x of the page of the device at the shared index of the array, is in configuration space there, and the next paint shows it |
| LfdkPool.TypedInLfdk | lfdk/lib_pci_dev.c:286-395 | in lfdk, on a machine whose scans find something: whatever is pressed until PCI-DEV is in front, a value typed at a cell and entered is written to that cell of the device at the shared index, is in configuration space there, and the last block painted shows it |
| CapabilityWalk.WalkReaches | lfdk/lib_pci_scan.c:227-242 | a walk with limit n finds exactly what n steps reach, cyclic chains included |
| CapabilityWalk.CapabilityBytes | lfdk/lib_pci_scan.c:205-242 | the id is the byte at the pointer, the next pointer the byte behind it in its dword, the first pointer the byte at 0x34 |
| CapabilityWalk.FirstFoundIsEarly | lfdk/lib_pci_scan.c:194 | on a chain that keeps to n offsets the first capability found comes after fewer than n steps |
| CapabilityWalk.WalkIsCompleteIff | lfdk/lib_pci_scan.c:194-242 | over all configuration bytes whose chain keeps to n offsets, the limit of 64 finds the capability exactly when unlimited following does, if and only if n is at most 65 |
| CapabilityWalk.BoundedWalkIsComplete | lfdk/lib_pci_scan.c:205-242 | for 4-aligned chains the walk limited to 64 finds the capability if and only if unlimited following reaches it |
| CapabilityWalk.UnalignedChainIsCutShort | lfdk/lib_pci_scan.c:227-242 | 256 configuration bytes with a chain of 66 unaligned offsets on which the walk stops one short of the capability |
| Enumeration.Scanner.AssignMmioBase | lfdk/lib_pci_scan.c:189-285 | the base is assigned if and only if the walk finds the capability and the nonzero first dword is the same through both mechanisms; ports are probed with phy_base 0 although the request is shared |
| Enumeration.Scanner.Probe | lfdk/lib_pci_scan.c:304-339 | one probe appends the function's entry exactly if its vendor word is not 0xffff |
| Enumeration.Scanner.ScanPciDevice | lfdk/lib_pci_scan.c:287-356 | the list is the first 200 present functions in order, each with the right base where the base is decoded; it reports full exactly if there are that many |
| Enumeration.ListIsSound | lfdk/lib_pci_scan.c:296-353 | every entry is a present function with its own ids and base, in strictly increasing order |
| Enumeration.ListIsComplete | lfdk/lib_pci_scan.c:296-353 | a function is present if and only if its entry is listed |
| Enumeration.ListHasRightBases | lfdk/lib_pci_scan.c:276-284 | where the base is decoded, a listed function on an aligned chain has it exactly if the chain reaches a PCIe capability, the first dword is not zero and the first window reaches past RAM, and otherwise has none |
| Enumeration.IdsAreConfigBytes | lfdk/lib_pci_scan.c:309-325 | ids are the first four configuration bytes, and a function is listed unless its vendor word is 0xffff |
| Enumeration.GetsBaseIffPcie | lfdk/lib_pci_scan.c:244-284 | where the base is decoded, an aligned chain gives the base if and only if it reaches a PCIe capability, the first dword is not zero, and the guard lets MMIO through or that dword is all ones |
| Enumeration.WordsAreBytes | lfdk/lib_pci_scan.c:205-242 | the words the walk reads from a function are pairs of its bytes, with a zero high byte at the last byte of a dword |
| Enumeration.EveryBytesAreAFunction | lfdk/lib_pci_scan.c:205-242 | any 256 bytes are those of a function of some machine |
| Enumeration.WalkIsCompleteIff | lfdk/lib_pci_scan.c:194-242 | hence for every function of every machine whose chain keeps to n offsets the walk is complete, if and only if n is at most 65 |
| Enumeration.PresentGetsBaseIsServed | lfdk/lib_pci_scan.c:244-284 | a present function that gets the base passes the driver's guard, wherever RAM ends and whatever the base |
| Enumeration.ScanDeliversGoodList | lfdk/lib_pci_scan.c:287-356 | under any aligned base, decoded or not, the list is what the PCI screens rely on |
| NameDatabase.LookupFindsOwnDevice | lfdk/lib_pci_scan.c:138-183 | if the vendor's own block lists the device, its name and that vendor's name are returned, whatever other blocks list |
| NameDatabase.LookupDoneIff | lfdk/lib_pci_scan.c:138-183 | a device name is returned if and only if a line of the vendor precedes a line of the device |
| NameDatabase.PrintedIdMatchesIff | lfdk/lib_pci_scan.c:95-119 | comparing with the printed id is reading the first four characters, decimal digits and lower-case letters, left to right to base 16 |
| NameDatabase.NameIsText | lfdk/lib_pci_scan.c:147 | a name is what follows six characters up to a NUL, and at most 75 characters of it |
| NameDatabase.UnlistedPairBorrowsName | lfdk/lib_pci_scan.c:154-163 | a database in which an unlisted pair finds a device |
| NameDatabase.ReadPrinted | lfdk/lib_pci_scan.c:52-92 | reading back any printed database gives its lines |
| NameDatabase.LookupRoundTrip | lfdk/lib_pci_scan.c:122-187 | printing any database with unique vendor ids and looking up a listed pair returns its names cut to 75 characters |
| NameDatabase.StoresFitIff | lfdk/lib_pci_scan.c:84-88 | the unchecked stores of one call all hit the buffer if and only if the text before the first # or newline, without tabs, has at most 512 characters |
| NameReader.Reader.ReadLine | lfdk/lib_pci_scan.c:52-92 | the character loop returns the class of the next newline-terminated line, with its tab-free text in the zeroed buffer; an unterminated last line yields no entry; every store, and strlen, stays in the buffer |
| NameReader.Reader.StrLen | lfdk/lib_pci_scan.c:76 | strlen of the buffer is the length of the text up to the first NUL |
| NameReader.Reader.CompareId | lfdk/lib_pci_scan.c:95-119 | the text starts with the id in four lower-case hex digits, read left to right to base 16 |
| NameReader.Reader.CopyName | lfdk/lib_pci_scan.c:147 | the text after six characters, up to a NUL, cut to 75 |
| NameReader.Reader.GetVendorAndDeviceTexts | lfdk/lib_pci_scan.c:122-187 | the streaming lookup returns what the lookup over all lines of the file returns |
| NameReader.LineEnds | lfdk/lib_pci_scan.c:74-79 | a newline ends a line, which is an entry if it has text |
| NameReader.CommentEnds | lfdk/lib_pci_scan.c:67-73 | a comment reaches to the next newline or the end of the file |
| SelfTest.ValidateReadSingle | lfdk/lib_pci_scan.c:476-532 | succeeds if and only if both mechanisms return the same for all eight registers |
| SelfTest.MechanismsAgree | lfdk/lib_pci_scan.c:500-530 | where the base is decoded they do, at every width, odd registers included |
| SelfTest.ValidateRead256 | lfdk/lib_pci_scan.c:534-569 | succeeds if and only if both bulk reads agree on the eight bytes |
| SelfTest.BulkRepliesAgree | lfdk/lib_pci_scan.c:534-569 | where the base is decoded they agree on all 256 |
| SelfTest.TestCycle | lfdk/lib_pci_scan.c:611-662 | with one width zeros and the pattern read back, and writing the saved value back restores the dword |
| SelfTest.TestOutcome | lfdk/lib_pci_scan.c:571-665 | for any two widths the test passes if and only if the register is reached and the read is as wide as the write, or wider with zeros beside the written bytes; passing restores the dword |
| SelfTest.ValidateWriteSingle | lfdk/lib_pci_scan.c:571-665 | for any read and write width, the verdict and what is left of the register are those of the test on one dword, and nothing else changes |
| SelfTest.ValidateWriteWidth | lfdk/lib_pci_scan.c:683-690 | with one width it succeeds if and only if the register is reached through MMIO, and all of configuration space and RAM is as found whatever the outcome |
| SelfTest.ValidationPcie | lfdk/lib_pci_scan.c:666-696 | under aligned bases, decoded or not, the self-test succeeds exactly if every listed function with a base passes, and leaves the hardware as found |
| SelfTestVerdict.DevicePassesIff | lfdk/lib_pci_scan.c:666-696 | a function passes if and only if its first window reaches past RAM and MMIO finds its first and its third dword, whether its base is decoded or not |
| SelfTest.ScanAndValidate | lfdk/lib_pci_scan.c:698-702 | the list of a fresh scan always passes the self-test |
| CircularList.Rotate | lfdk/list.h:31-33 | every node of a ring is a head of it |
| CircularList.Cut | lfdk/list.h:31-33 | a ring is two chains joined at both ends |
| CircularList.IsEmpty | lfdk/list.h:182-185 | the head points to itself if and only if there are no entries |
| CircularList.IsEmptyCareful | lfdk/list.h:200-204 | so do both of its pointers |
| CircularList.IsLast | lfdk/list.h:172-176 | an entry's successor is the head if and only if nothing follows it |
| CircularList.AddBetween | lfdk/list.h:43-51 | an entry is inserted between two consecutive nodes, all other nodes untouched |
| CircularList.Add | lfdk/list.h:61-64 | an entry goes in front |
| CircularList.AddTail | lfdk/list.h:74-77 | an entry goes to the end |
| CircularList.Neighbours | lfdk/list.h:93-110 | an entry's pointers are its neighbours in the ring, and it occurs once |
| CircularList.Delete | lfdk/list.h:105-110 | an entry is removed and keeps its own pointers |
| CircularList.DeleteInit | lfdk/list.h:138-142 | an entry is removed and heads an empty list |
| CircularList.Replace | lfdk/list.h:118-125 | the new node takes the old one's place in front of the same entries; a self-linked old gives a self-linked new through the aliased stores |
| CircularList.ReplaceEntry | lfdk/list.h:118-125 | an entry's place in the order goes to the new node |
| CircularList.ReplaceInit | lfdk/list.h:127-132 | and the old one heads an empty list |
| CircularList.MoveToFront | lfdk/list.h:149-153 | an entry moves to the front of its own list |
| CircularList.MoveAcross | lfdk/list.h:149-153 | an entry leaves one list for the front of another |
| CircularList.MoveToBack | lfdk/list.h:160-165 | an entry moves to the end of its own list |
| CircularList.MoveAcrossTail | lfdk/list.h:160-165 | an entry leaves one list for the end of another |
| CircularList.Splice | lfdk/list.h:206-229 | splicing is concatenation |
| CircularList.SpliceInit | lfdk/list.h:238-245 | and leaves an empty source |
| CircularList.DeleteWhere | lfdk/list.h:293-295 | the safe traversal visits every entry once and in order while some are taken out and reinitialised, and the others stay |

## Left out

- ncurses windows, panels, colours, drawing, `sprintf` texts, logging and `getopt`: user interface and I/O.
- Real `ioremap`, `inl`, `outl`, `readl`, `writel`, `copy_from_user` and ioctl numbers: replaced by the hardware
  model. Mapping always succeeds, nobody else touches CF8, the low two bits of CF8 are ignored, and configuration
  space is plain memory. A physical access that is not dword-aligned is served by the dword that holds it.
- The MMIO branch under concurrency: the window globals change before the lock is taken, so it is modelled
  serially; `PortInterleaving` covers the port branch.
- Windows that transfer control to a name that is not registered: the target would be -1, and the message
  handler indexes the pool with it. Both callers in lfdk pass registered names.
- Runs of the main loop with RELEASE or DESTROY messages: drains of them are covered (`DrainAlternatesIff`,
  `DestroyedRevivesIff`, one foreground window), whole runs are those of lfdk's modules, which post neither.
- get_focus and lost_focus callbacks that post messages: those of lfdk's modules post none.
- WindowManager.Manager.RequestXfer: what it returns when it posts; the C function ends without a return statement.
- WindowManager.Manager.RequestDestroy: what it returns when it posts, for the same reason.
- EndToEnd.EveryRequestIsGood: runs in which a scan finds no function at all; the shared index can then leave the
  array (`IndexStaysIff`).
- EndToEnd.AnyBaseIsServedFresh: bases given by hand that are not 256-aligned or leave less than 256 MiB below 4 GiB;
  bulk reads under them can disturb the window (`BulkStaysValidIff`), and their addresses can lose bits
  (`EcamFitsIff`).
- PageEditors.EnterWritesQueue: ends at the request. The driver has no word write for ports
  (lfdd/lfdd.c:212-220), so a word typed into IO-SPACE is answered with an error and the tool exits.
- NameReader.Reader.ReadLine: a line whose stored text overflows the buffer, or fills it and leaves strlen without
  a NUL (`FitsBuffer` is the exact condition). A file that cannot be opened leaves both texts alone.
- Texts of list entries: the lookup is modelled on its own and not stored with the entries.
- `find_mmio_in_MCFG`: the base is a parameter.
- `lfdk/libcmos.c`: a simpler copy of the editors.
- `lfdd/libmem.c`, `lfdd/libio.c`, `lfdd/lfdd.c`, `lfdk/libbase.c`, `lfdk/debug.c`: range checks, port wrappers and
  dispatch.
- The RCU, prefetch and typed iteration macros of `lfdk/list.h`: memory ordering is not decided by this code.
- Where the tool's documentation says PCI Express shows 1K bytes, PCI-DEV pages up to 0x1000 as the code does.
