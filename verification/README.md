# The simulated system, modelled and proved

This project models, in Dafny, the parts of the repository that hold state worth checking, and proves what they promise.

**Paged memory** (`Memory`, `CrewTable`, `PageTables`, `PageLifecycle`, `PagedMemory`, `Replacement`, `PagingLayout`, `CrewLaws`,
`Paging`, `PagingFailures`). Every
patota sees a flat byte memory with an 8-byte PCB, one 21-byte TCB per seat and its task text. Behind it are RAM and swap
frames, page tables, demand paging, LRU or CLOCK replacement and reads and writes that straddle pages. The class
`PagedMemory` is proved to be that flat memory, and the class `Paging` to be a *crew table*: a list of patotas with their
crews, tasks and positions, on which every client operation has its plain meaning; `CrewLaws` says that meaning in terms
of what is read back, and `Replacement` that the two policies are the textbook ones.

**Segmented memory** (`Segments`, `SegmentTables`, `Segmentation`, `SegmentFailures`). The same interface over a list of segments with first or
best fit, expulsion and a compactor that moves bytes and rewrites tables step by step; proved to be the same crew table.
`Equivalence` runs both schemes side by side over whole histories.

**Scheduler** (`CycleProtocol`, `Schedule`, `ScheduleLaws`, `ScheduleMoves`, `ScheduleRuns`, `ScheduleTasks`, `SweepLaws`,
`DeviceLaws`, `DeviceWaits`, `Ways`, `Countdown`, `ProtocolOrders`, `CycleFailures`, `SabotageChoice`, `LostSabotage`,
`Queues`, `Planner`). `CycleProtocol` is a state machine of atomic steps of the planner, the CPUs and the I/O device around the barrier of a cycle; its theorems hold under
every interleaving. `Schedule` says as functions what a cycle does, `Planner` does it with loops over queue objects, and the
laws are about cycles and about whole histories: where everybody is, how long anybody stays in EXEC or waits for the I/O
device, and how long a sabotage lasts.

**Block file system** (`Text`, `Bitmap`, `Storage`, `Appends`, `FileSystem`). A bitmap allocator, append-only logs and files
over block lists that are kept as text, and the repair of the bitmap.

**Vendored containers** (`Dictionary`, `Lists`). The chained hash table with resize, and the linked list with sort and with
removal during a walk.

Where the code does not do what it evidently means to, the model does what the code does, and a lemma says exactly when
that is right: `PageLifecycle.RemoveRightIff`, `PagedMemory.BumpedRight` (and, on the state before the call,
`Paging.Paging.NextTask`), `Paging.RecordedFrameRightIff`, `PagingLayout.SeatStaysIff`, `Segments.StepTilesIff`,
`Segments.PlaceKeepsOrderIff`, `SegmentTables.RedirectKeepsIff`, `SegmentTables.FreeSeatIff`, `Segmentation.AdvancedIff`,
`ScheduleRuns.SabotageEndsIff`, `CycleFailures.FailsIff`, `SabotageChoice.GapIsDistanceIff`, `SabotageChoice.AlwaysNearestIff`,
`ScheduleLaws.InitSabotageIff`, `Appends.LogCountIff`, `Appends.FileCountIff`, `FileSystem.RepairIff`,
`Dictionary.KeepsBothIff`; with concrete failures in `PagingFailures.ClashHappens`, `PagingFailures.CounterRun`,
`SegmentFailures.OutOfOrder`, `SegmentFailures.BothRedirected`, `CycleFailures.SecondStepFails`,
`SabotageChoice.PassedOver`, `LostSabotage.Dropped`, `LostSabotage.Asked` and `Dictionary.LogsCollide`.

Invariants are predicates on values (`MemoryOk`, `PatotaOk`, `StoreOk`, `Good`, `OwnersOk`, `TableOk`); the classes' methods
change fields and arrays in loops and are proved against functions on these values. Products, quotients and remainders by
the page or block size are written as `Base`, `BlockOf` and `OffsetOf`, with lemmas that equate them to `*`, `/` and `%`.
Verify with `dafny verify dfyconfig.toml`.

## Model

| member | source | states |
|---|---|---|
| Paging.Paging.InitPatota | Mi-RAM-HQ/src/memoria/esquemas/paginacion/paginacion.c:118-141 | an admission is granted exactly when 8 + 21 * n + length + 1 bytes are no more than the free frames of RAM and swap together hold; then the crew table is the old one with the patota added, otherwise nothing at all has changed |
| PagingLayout.FramesNeededIff | Mi-RAM-HQ/src/memoria/esquemas/paginacion/paginacion.c:431-436 | the number of frames asked for is enough and the least that is: n frames suffice for it exactly when their bytes do |
| Paging.Paging.InitMember | Mi-RAM-HQ/src/memoria/esquemas/paginacion/paginacion.c:143-185 | starting a member, as long as no page under the next seat has been given up, adds exactly that member, in state NEW with task 0, to its patota, and to nobody else's table |
| PagingLayout.SeatStaysIff | Mi-RAM-HQ/src/memoria/esquemas/paginacion/paginacion.c:1194-1219 | an expulsion leaves the next seat usable exactly when no page under it has the leaver as its only occupant; seats not taken yet do not count as occupants |
| Paging.Paging.UpdatePosition | Mi-RAM-HQ/src/memoria/esquemas/paginacion/paginacion.c:187-222 | the crew table afterwards is the old one with this member's position changed, which CrewLaws.MoveLaw and CrewLaws.MoveListed say as it is read back, whatever was paged in or out on the way |
| Paging.Paging.UpdateState | Mi-RAM-HQ/src/memoria/esquemas/paginacion/paginacion.c:224-264 | the crew table afterwards is the old one with this member's state changed, whatever was paged in or out on the way |
| Paging.Paging.GetMember | Mi-RAM-HQ/src/memoria/esquemas/paginacion/paginacion.c:294-305 | the record read back is the one that the crew table has for the member |
| Paging.Paging.ListAll | Mi-RAM-HQ/src/memoria/esquemas/paginacion/paginacion.c:307-337 | the listing is that of the crew table: patotas in admission order, members in starting order, nobody twice and nobody left out |
| CrewLaws.MoveLaw | Mi-RAM-HQ/src/memoria/esquemas/paginacion/paginacion.c:187-222 | after a move this member is found at exactly the x and the y given, with its tid, state and task counter as before, and everybody else as before |
| CrewLaws.MoveListed | Mi-RAM-HQ/src/memoria/esquemas/paginacion/paginacion.c:307-337 | the listing after a move is the one before with x and y in this member's line, in the same place |
| CrewLaws.SetStateLaw | Mi-RAM-HQ/src/memoria/esquemas/paginacion/paginacion.c:224-264 | after a change of state this member is found with exactly that state, at its place and with its task counter as before, and everybody else as before |
| CrewLaws.AdvanceLaw | Mi-RAM-HQ/src/memoria/esquemas/paginacion/paginacion.c:266-292 | a task handed out moves this member on to the following one and nobody else; with none left nothing moves |
| CrewLaws.TasksInOrder | Mi-RAM-HQ/src/memoria/esquemas/paginacion/paginacion.c:266-292 | a member that asks again and again gets the lines of its patota's text one after the other, from the first to the last, and then none |
| CrewLaws.LinesAreText | Mi-RAM-HQ/src/memoria/esquemas/paginacion/paginacion.c:1116-1132 | the lines joined with newlines are the text, and no line has a newline |
| CrewLaws.AdmitLaw | Mi-RAM-HQ/src/memoria/esquemas/paginacion/paginacion.c:118-141 | a patota admitted is there with its text and all its seats, with nobody in it yet, and all others are as before |
| CrewLaws.StartLaw | Mi-RAM-HQ/src/memoria/esquemas/paginacion/paginacion.c:143-185 | a member started is found with state N, at the place given, before its first task, on one seat of its patota; everybody else is as before |
| CrewLaws.StartListed | Mi-RAM-HQ/src/memoria/esquemas/paginacion/paginacion.c:307-337 | its line comes after those of its patota and before those of the following ones |
| CrewLaws.ExpelLaw | Mi-RAM-HQ/src/memoria/esquemas/paginacion/paginacion.c:339-389 | whoever is expelled is found no more, everybody else is as before, and the patota is there for as long as anybody else of it is |
| CrewLaws.ExpelListed | Mi-RAM-HQ/src/memoria/esquemas/paginacion/paginacion.c:307-337 | the listing after an expulsion is the one before without that member's line |
| CrewLaws.ListingIs | Mi-RAM-HQ/src/memoria/esquemas/paginacion/paginacion.c:307-337 | a line is in the listing exactly when its member is there with that state and position |
| Paging.Paging.NextTask | Mi-RAM-HQ/src/memoria/esquemas/paginacion/paginacion.c:266-292 | the text delivered is, as a C string without its newline, line number `next` of the task text, none exactly after the last one; the member moves on to the following task exactly when the stored counter is not hit, a condition on the state before the call: it never is where the counter does not straddle pages or under LRU with two RAM frames, and, with a task left, always is where it straddles pages over a single RAM frame |
| Paging.Paging.Expel | Mi-RAM-HQ/src/memoria/esquemas/paginacion/paginacion.c:339-389 | the member leaves the table, with the last one the patota; the state stays sound exactly when the release of the patota names no swap frame in which another patota's page lives, and the next seat stays usable exactly when no page under it was the member's alone |
| Paging.Paging.LooksCleanIs | Mi-RAM-HQ/src/memoria/esquemas/paginacion/paginacion.c:1240-1262 | a condition a caller can check on the page tables alone, no swap frame named by rows of two patotas, is enough for an expulsion to go well, and exact as long as no page given up early still names a swap frame |
| Paging.Paging.FetchTask | Mi-RAM-HQ/src/memoria/esquemas/paginacion/paginacion.c:1154-1191 | what is copied from the memory between a task's offset and the next, byte by byte across pages, is that line of the text |
| Paging.Paging.FindTaskOffsets | Mi-RAM-HQ/src/memoria/esquemas/paginacion/paginacion.c:1116-1132 | the offsets recorded are 0 and the position after every newline of the text |
| Paging.Paging.ReadTaskBase | Mi-RAM-HQ/src/memoria/esquemas/paginacion/paginacion.c:1134-1152 | the address in the PCB is where the task text begins |
| Paging.Paging.BumpCounter | Mi-RAM-HQ/src/memoria/esquemas/paginacion/paginacion.c:674-712 | the counter stored in a member's TCB goes up by one and no other byte of any patota changes, or the counter ends up wrong: the latter exactly when entering the pages on the way to it, from the state before, makes its own page the next victim |
| PagedMemory.RouteUnique | Mi-RAM-HQ/src/memoria/esquemas/paginacion/paginacion.c:758-797 | the pages entered one after the other determine the state they lead to, which is why that condition can be told before the call |
| PageTables.FaultUnique | Mi-RAM-HQ/src/memoria/esquemas/paginacion/paginacion.c:758-784 | what a fault does is determined by the state before it |
| Paging.Paging.LeaveTcb | Mi-RAM-HQ/src/memoria/esquemas/paginacion/paginacion.c:347-358 | the first page under the TCB and, if the TCB goes beyond it, the next one lose an occupant each, and exactly those left without any are given up |
| Paging.RecordedFrameRightIff | Mi-RAM-HQ/src/memoria/esquemas/paginacion/paginacion.c:519 | the frame recorded for the task text is the one its cursor stands in exactly when the cursor is not at the end of its page |
| PagingLayout.NeededIsLive | Mi-RAM-HQ/src/memoria/esquemas/paginacion/paginacion.c:1194-1219 | a page given up early holds no byte of the PCB, of the task text or of a TCB that a remaining member has: all of these can still be read |
| PagingLayout.MemberStarted | Mi-RAM-HQ/src/memoria/esquemas/paginacion/paginacion.c:143-185 | taking the next seat keeps the occupant count of every page at least the number of TCBs touching it, plus one for the PCB, plus one for task text, and exactly that for pages of 21 bytes or more |
| PagingLayout.MemberExpelled | Mi-RAM-HQ/src/memoria/esquemas/paginacion/paginacion.c:339-389 | leaving keeps the same for the members that stay, and pages released with the leaver have no occupants |
| PagingLayout.OffsetsCutLines | Mi-RAM-HQ/src/memoria/esquemas/paginacion/paginacion.c:1116-1132 | between consecutive task offsets lies exactly one line of the text, followed by its newline unless it is the last |
| PagingLayout.TaskStretch | Mi-RAM-HQ/src/memoria/esquemas/paginacion/paginacion.c:1154-1191 | the bytes between a task's offset and its end are all on live pages and, as a C string without newline, are that task |
| PagedMemory.PagedMemory.Translate | Mi-RAM-HQ/src/memoria/esquemas/paginacion/paginacion.c:786-797 | a logical address of a live page is translated to the same byte, faulting the page in only if it is not resident; no patota's bytes change |
| PagedMemory.PagedMemory.Fault | Mi-RAM-HQ/src/memoria/esquemas/paginacion/paginacion.c:758-784 | every fault on a live page succeeds: a free RAM frame or a victim is found, the page ends resident, and no patota's bytes change |
| PagedMemory.PagedMemory.FreeOneFrame | Mi-RAM-HQ/src/memoria/esquemas/paginacion/paginacion.c:965-982 | a victim of the policy leaves RAM, to a free swap frame or in exchange for the faulting page |
| PagedMemory.PagedMemory.SelectByLru | Mi-RAM-HQ/src/memoria/esquemas/paginacion/paginacion.c:984-1015 | the page chosen has the least stamp of all resident pages of all patotas, the last such in walking order; Replacement.LruIsRecency says what that amounts to over time |
| PagedMemory.PagedMemory.SelectByClock | Mi-RAM-HQ/src/memoria/esquemas/paginacion/paginacion.c:1024-1044 | within two sweeps the hand finds the first frame in cyclic order whose use bit is clear, or comes back to where it began if all were set; Replacement.ClockIsSecondChance says what that amounts to over time |
| PagedMemory.PagedMemory.FindPageOfFrame | Mi-RAM-HQ/src/memoria/esquemas/paginacion/paginacion.c:1221-1238 | the walk over all page tables finds the one page that is in a RAM frame |
| PagedMemory.PagedMemory.ExchangePages | Mi-RAM-HQ/src/memoria/esquemas/paginacion/paginacion.c:1069-1114 | with RAM and swap full the faulting page and the victim trade places, and all other frames stay as they were |
| PagedMemory.PagedMemory.TradePlaces | Mi-RAM-HQ/src/memoria/esquemas/paginacion/paginacion.c:1069-1114 | the buffer, the two copies and the row updates amount to one simultaneous exchange of the two frames' bytes and owners |
| PagedMemory.PagedMemory.AddPatota | Mi-RAM-HQ/src/memoria/esquemas/paginacion/paginacion.c:488-526 | a patota that the free frames suffice for gets all its pages, each in the next free frame, RAM first, and exactly those frames are taken; nobody else's bytes change |
| PagedMemory.PagedMemory.Leave | Mi-RAM-HQ/src/memoria/esquemas/paginacion/paginacion.c:1194-1219 | a page loses an occupant and, with the last one, gives up the frame it lives in; the memory stays sound |
| PagedMemory.PagedMemory.Remove | Mi-RAM-HQ/src/memoria/esquemas/paginacion/paginacion.c:1240-1262 | all frames that a patota's rows name are freed; every page that is still live keeps a used frame exactly when no stale swap frame clashes |
| PagedMemory.PagedMemory.TouchFrame | Mi-RAM-HQ/src/memoria/esquemas/paginacion/paginacion.c:529-555 | a touch stamps the one row that names the frame, sets its use bit and counts an occupant for a first writing |
| PagedMemory.PagedMemory.LoadWord | Mi-RAM-HQ/src/memoria/esquemas/paginacion/paginacion.c:887-912 | four bytes read at a cursor, on one page or across two, are the four bytes of the patota's flat memory at that logical address, and the cursor's three parts agree afterwards |
| PagedMemory.PagedMemory.WriteWord | Mi-RAM-HQ/src/memoria/esquemas/paginacion/paginacion.c:827-862 | a word written at a cursor changes exactly those four bytes of that patota's flat memory and no byte of any other |
| PagedMemory.PagedMemory.LoadChar | Mi-RAM-HQ/src/memoria/esquemas/paginacion/paginacion.c:914-921 | a byte read at a cursor is the byte of the flat memory there, and the cursor moves on, to the next page if need be |
| PagedMemory.PagedMemory.StoreChar | Mi-RAM-HQ/src/memoria/esquemas/paginacion/paginacion.c:955-962 | a byte written at a cursor changes exactly that byte of that patota's flat memory |
| PagedMemory.PagedMemory.CheckOverflow | Mi-RAM-HQ/src/memoria/esquemas/paginacion/paginacion.c:864-885 | a cursor that has run off its page stands at the beginning of the next one, at the same logical address |
| PagedMemory.PagedMemory.BumpWord | Mi-RAM-HQ/src/memoria/esquemas/paginacion/paginacion.c:700-708 | reading a word and writing its successor at the saved cursor: the effect, both when the read has left the cursor's page in place and when it has not |
| PagedMemory.BumpedRight | Mi-RAM-HQ/src/memoria/esquemas/paginacion/paginacion.c:700-708 | the word ends up as its successor, and nothing else changes, exactly when the read did not push the cursor's own page out of RAM |
| PagedMemory.AfterEntering | Mi-RAM-HQ/src/memoria/esquemas/paginacion/paginacion.c:758-797 | after moving to the next page the cursor's frame holds the old page still or, exactly when that was the victim, the new one |
| PagedMemory.AfterFullFault | Mi-RAM-HQ/src/memoria/esquemas/paginacion/paginacion.c:965-982 | with RAM full, the faulting page takes the frame under the cursor exactly when the cursor's page is the policy's victim |
| PageTables.UsedFramesAreLivePages | Mi-RAM-HQ/src/memoria/esquemas/paginacion/paginacion.c:425-440 | there are exactly as many used frames, RAM and swap together, as pages that have not been given up |
| PageTables.PageInOk | Mi-RAM-HQ/src/memoria/esquemas/paginacion/paginacion.c:767-784 | moving a page from swap to a free RAM frame keeps frame tables and page tables inverse to each other and every patota's bytes as they were |
| PageTables.PageOutOk | Mi-RAM-HQ/src/memoria/esquemas/paginacion/paginacion.c:1046-1062 | moving a page from RAM to a free swap frame keeps the same |
| PageTables.ExchangeOk | Mi-RAM-HQ/src/memoria/esquemas/paginacion/paginacion.c:1069-1114 | trading places keeps the same |
| PageTables.WriteOk | Mi-RAM-HQ/src/memoria/esquemas/paginacion/paginacion.c:827-862 | a write inside a resident page's frame is that write in the patota's flat memory, for every patota at once |
| PageTables.ReadOk | Mi-RAM-HQ/src/memoria/esquemas/paginacion/paginacion.c:887-921 | a read inside a resident page's frame is that read of the patota's flat memory |
| PageTables.StampsAfterTouch | Mi-RAM-HQ/src/memoria/esquemas/paginacion/paginacion.c:529-555 | stamps go on telling when each page was last touched |
| PageTables.TouchedStampsDistinct | Mi-RAM-HQ/src/memoria/esquemas/paginacion/paginacion.c:529-555 | no two pages that have been touched share a stamp |
| PageTables.LruVictimLeastRecent | Mi-RAM-HQ/src/memoria/esquemas/paginacion/paginacion.c:984-1015 | no resident page that was ever touched was last touched before a touched LRU victim |
| PageTables.LruSparesTheLatest | Mi-RAM-HQ/src/memoria/esquemas/paginacion/paginacion.c:984-1015 | with two RAM frames or more LRU never evicts the page touched last |
| Replacement.LruIsRecency | Mi-RAM-HQ/src/memoria/esquemas/paginacion/paginacion.c:984-1015 | with RAM full, and some page used since the last admission, LRU is move-to-front: over any pages used one after the other, the pages in RAM in the order of their last use are those of the textbook list, which drops the last one for a page that comes in |
| Replacement.RecencyExists | Mi-RAM-HQ/src/memoria/esquemas/paginacion/paginacion.c:984-1015 | in every state with RAM full there is such a list, pages not used since their admission in the order of the page tables |
| Replacement.ClockIsSecondChance | Mi-RAM-HQ/src/memoria/esquemas/paginacion/paginacion.c:1024-1044 | with RAM full, CLOCK is the queue with a second chance: over any pages used one after the other, the frames from the hand on with their use bits are those of the textbook queue |
| Replacement.FreeFrameUsed | Mi-RAM-HQ/src/memoria/esquemas/paginacion/paginacion.c:767-784 | with room in RAM, under either policy, a page comes into the first free frame, with its bit set and the latest stamp, and leaves its swap frame; nothing else moves, and neither does the hand |
| PageTables.ClearBitsEffect | Mi-RAM-HQ/src/memoria/esquemas/paginacion/paginacion.c:1024-1044 | exactly the frames that the hand passed have their use bit cleared |
| PageTables.VictimUnique | Mi-RAM-HQ/src/memoria/esquemas/paginacion/paginacion.c:965-982 | the victim, and the state its selection leaves, are determined by the state |
| PageTables.FullFaultEffect | Mi-RAM-HQ/src/memoria/esquemas/paginacion/paginacion.c:1069-1114 | a fault with RAM full replaces one victim and leaves every other resident page where it is |
| PageTables.FreeFaultEffect | Mi-RAM-HQ/src/memoria/esquemas/paginacion/paginacion.c:767-784 | a fault with a free RAM frame takes nothing out of RAM |
| PageLifecycle.AddRowOk | Mi-RAM-HQ/src/memoria/esquemas/paginacion/paginacion.c:488-526 | one more page keeps the memory sound and uses up exactly one free frame |
| PageLifecycle.NextPlaced | Mi-RAM-HQ/src/memoria/esquemas/paginacion/paginacion.c:488-526 | page number j of a new patota gets the free RAM frame with j free ones before it or, beyond those, the free swap frame in the same way |
| PageLifecycle.LeavePageOk | Mi-RAM-HQ/src/memoria/esquemas/paginacion/paginacion.c:1194-1219 | giving up a page early keeps the memory sound and every other page's bytes in place |
| PageLifecycle.RemoveOk | Mi-RAM-HQ/src/memoria/esquemas/paginacion/paginacion.c:1240-1262 | releasing a patota keeps the memory sound for all others when no stale swap frame clashes |
| PageLifecycle.RemoveRightIff | Mi-RAM-HQ/src/memoria/esquemas/paginacion/paginacion.c:1253-1258 | freeing both frame numbers of every row leaves all other patotas' frames used exactly when no stale `frame_swap` has become another page's home |
| PagingFailures.ClashHappens | Mi-RAM-HQ/src/memoria/esquemas/paginacion/paginacion.c:776-777 | a concrete sound state that stands for two patotas of one member each, in which expelling the second one frees the swap frame that the first one's page lives in |
| PagingFailures.CounterRun | Mi-RAM-HQ/src/memoria/esquemas/paginacion/paginacion.c:674-712 | admitting a patota, starting a member and handing out its first task, with one RAM frame of 24 bytes: the text is right and the counter is wrong, under either policy |
| Segments.Choose | Mi-RAM-HQ/src/memoria/esquemas/segmentacion/segmentacion.c:548-610 | the hole chosen fits, exists whenever any does, and is the one at the lowest address, or the smallest and first such in the list |
| Segments.PlaceKeeps | Mi-RAM-HQ/src/memoria/esquemas/segmentacion/segmentacion.c:588-607 | a split keeps all segments in use and adds the requested one at the hole's beginning |
| Segments.PlaceTiles | Mi-RAM-HQ/src/memoria/esquemas/segmentacion/segmentacion.c:588-607 | a split keeps the segments tiling the memory, whatever their order in the list |
| Segments.ChainIff | Mi-RAM-HQ/src/memoria/esquemas/segmentacion/segmentacion.c:796-797 | being a list in which each segment begins where the one before ends is exactly being a tiling listed in address order |
| Segments.PlaceKeepsOrderIff | Mi-RAM-HQ/src/memoria/esquemas/segmentacion/segmentacion.c:600-607 | a split keeps the list in address order exactly when the fit is exact or the hole was the last segment |
| Segments.StepTilesIff | Mi-RAM-HQ/src/memoria/esquemas/segmentacion/segmentacion.c:782-834 | a compaction step keeps the tiling exactly when the next segment of the list is also the next by address |
| Segments.StepOccupied | Mi-RAM-HQ/src/memoria/esquemas/segmentacion/segmentacion.c:782-834 | a compaction step keeps the segments in use in their order |
| Segments.StepProgress | Mi-RAM-HQ/src/memoria/esquemas/segmentacion/segmentacion.c:534-546 | each step makes the list shorter or moves the first hole one place up, so that compaction ends |
| Segments.CompactedShape | Mi-RAM-HQ/src/memoria/esquemas/segmentacion/segmentacion.c:761-780 | the test for being compacted means: everything in use is packed from address 0 and one hole at the end has all the free space |
| Segments.OneHoleFits | Mi-RAM-HQ/src/memoria/esquemas/segmentacion/segmentacion.c:516-546 | with all free space in one hole every list of requests within the free space can be placed |
| SegmentFailures.OutOfOrder | Mi-RAM-HQ/src/memoria/esquemas/segmentacion/segmentacion.c:588-607 | one admission, its expulsion and an admission that is a byte shorter leave the list out of address order, under either fit; a compaction then finds nothing behind the first hole, or, after another expulsion, makes a hole that overlaps another |
| SegmentFailures.BothRedirected | Mi-RAM-HQ/src/memoria/esquemas/segmentacion/segmentacion.c:870-893 | a patota of which no seat is taken yet, behind one that is expelled: the compaction redirects both seats to the same segment |
| SegmentTables.PartMoved | Mi-RAM-HQ/src/memoria/esquemas/segmentacion/segmentacion.c:796-834 | moving a segment down over a hole, bytes, list and table together: every PCB, task text and TCB reads the same bytes through its start |
| SegmentTables.RedirectKeepsIff | Mi-RAM-HQ/src/memoria/esquemas/segmentacion/segmentacion.c:836-897 | redirecting seats by tid keeps every part in its own segment exactly when no two seats have that tid |
| SegmentTables.EmptyCrewIff | Mi-RAM-HQ/src/memoria/esquemas/segmentacion/segmentacion.c:302-425 | all seats being without a tid is exactly nobody being left of the crew |
| SegmentTables.ProcessGone | Mi-RAM-HQ/src/memoria/esquemas/segmentacion/segmentacion.c:302-425 | giving up the PCB and task segments of an empty patota leaves all other parts in place |
| Segmentation.Segmentation.InitPatota | Mi-RAM-HQ/src/memoria/esquemas/segmentacion/segmentacion.c:61-89 | an admission is granted exactly when the free bytes suffice; then the crew table has the patota added and `espacio_libre` is smaller by exactly the bytes taken |
| Segmentation.Segmentation.ObtainSegments | Mi-RAM-HQ/src/memoria/esquemas/segmentacion/segmentacion.c:454-514 | seats, task text and PCB each get a segment of their own, and no segment in use is touched |
| Segmentation.Segmentation.MakeRoom | Mi-RAM-HQ/src/memoria/esquemas/segmentacion/segmentacion.c:516-546 | after it some hole is large enough: the list was compacted only if none was |
| Segmentation.Segmentation.FindHole | Mi-RAM-HQ/src/memoria/esquemas/segmentacion/segmentacion.c:548-587 | the loop over the list finds the hole that the configured criterion prefers |
| Segmentation.Segmentation.Split | Mi-RAM-HQ/src/memoria/esquemas/segmentacion/segmentacion.c:588-610 | the hole becomes the requested segment and its remainder goes to the end of the list |
| Segmentation.Segmentation.InitMember | Mi-RAM-HQ/src/memoria/esquemas/segmentacion/segmentacion.c:92-159 | starting a member of a patota from which nobody has been expelled adds exactly that member to the crew table |
| SegmentTables.FreeSeatIff | Mi-RAM-HQ/src/memoria/esquemas/segmentacion/segmentacion.c:110-123 | while seats are left, the first one without a tid has a segment exactly when nobody of the patota has been expelled |
| Segmentation.Segmentation.UpdatePosition | Mi-RAM-HQ/src/memoria/esquemas/segmentacion/segmentacion.c:161-196 | the crew table afterwards is the old one with this member's position changed, in the same sense |
| Segmentation.Segmentation.UpdateState | Mi-RAM-HQ/src/memoria/esquemas/segmentacion/segmentacion.c:198-233 | the crew table afterwards is the old one with this member's state changed |
| Segmentation.Segmentation.GetMember | Mi-RAM-HQ/src/memoria/esquemas/segmentacion/segmentacion.c:267-273 | the record read is the one that the crew table has, its counter capped at the number of tasks |
| Segmentation.Segmentation.ListAll | Mi-RAM-HQ/src/memoria/esquemas/segmentacion/segmentacion.c:275-300 | the listing is that of the crew table, without expelled members and seats not taken |
| Segmentation.Segmentation.NextTask | Mi-RAM-HQ/src/memoria/esquemas/segmentacion/segmentacion.c:236-265 | the task delivered is the crew table's next one; the table moves on as it should exactly when the stored counter does not wrap around |
| Segmentation.AdvancedIff | Mi-RAM-HQ/src/memoria/esquemas/segmentacion/segmentacion.c:677-716 | counting up the stored counter is moving on in the crew table exactly when it is not about to wrap around |
| Segmentation.Segmentation.ReadTasks | Mi-RAM-HQ/src/memoria/esquemas/segmentacion/segmentacion.c:647-675 | the text copied out is the patota's task text |
| Segmentation.Segmentation.Expel | Mi-RAM-HQ/src/memoria/esquemas/segmentacion/segmentacion.c:302-425 | the member leaves the table, with the last one the patota, and the free bytes grow by exactly what is given up |
| Segmentation.Segmentation.Compact | Mi-RAM-HQ/src/memoria/esquemas/segmentacion/segmentacion.c:534-546 | compaction ends with a packed list in address order, one hole at the end and the same free bytes, segments in use and crew table as before |
| Segmentation.Segmentation.IsCompacted | Mi-RAM-HQ/src/memoria/esquemas/segmentacion/segmentacion.c:761-780 | the two loops decide whether there is exactly one hole and it ends the memory |
| Segmentation.Segmentation.Reassign | Mi-RAM-HQ/src/memoria/esquemas/segmentacion/segmentacion.c:782-834 | one step merges two holes or moves one segment down, and every registered part keeps its bytes |
| Segmentation.Segmentation.MoveBytes | Mi-RAM-HQ/src/memoria/esquemas/segmentacion/segmentacion.c:836-897 | the segment's bytes move down and the part that owned them is found there |
| Equivalence.Comparison.Run | Mi-RAM-HQ/src/memoria/esquemas/paginacion/paginacion.c:118-389 | any history of admissions, which may compact, starts, moves, changes of state, tasks, queries, expulsions and compactions is run on both schemes up to the first operation that one of the two does not take, and no further and no less: the answers are the same, and they are the crew table's |
| Equivalence.Comparison.Step | Mi-RAM-HQ/src/memoria/esquemas/segmentacion/segmentacion.c:61-425 | one operation on both, taken exactly when both take it: equal answers that follow from the common crew table; otherwise neither table has moved |
| Equivalence.Comparison.CompactBoth | Mi-RAM-HQ/src/memoria/esquemas/segmentacion/segmentacion.c:430-434 | a compaction on demand leaves the crew table that both stand for as it is |
| SegmentTables.CanMoveIs | Mi-RAM-HQ/src/memoria/esquemas/segmentacion/segmentacion.c:836-897 | a check over all patotas and seats decides whether the compactor can move a segment |
| Equivalence.Comparison.TaskBoth | Mi-RAM-HQ/src/memoria/esquemas/paginacion/paginacion.c:266-292 | the k-th task of a member is the same under both, up to the newline that paging keeps, none after the last |
| Equivalence.Comparison.ExpelBoth | Mi-RAM-HQ/src/memoria/esquemas/segmentacion/segmentacion.c:302-425 | an expulsion leaves both standing for the same crew table |
| CycleProtocol.BarrierOpens | Discordia/src/planificador/synchronizer.c:77-100 | under every interleaving: when the barrier opens each device has notified exactly once, EXEC holds the members it began with, everybody has run, exactly once when there are as many members as CPUs |
| CycleProtocol.NoPushDropped | Discordia/src/planificador/queues/queue_mt.c:62-69 | whenever a CPU puts a member back, the bounded queue has room for it |
| CycleProtocol.StepDecreases | Discordia/src/planificador/cpu.c:9-38 | every step of a cycle, whoever takes it, uses up a bounded amount of work |
| CycleProtocol.NeverStuck | Discordia/src/planificador/synchronizer.c:65-100 | until the barrier opens some device or the planner can take a step: no wakeup is lost |
| CycleProtocol.CycleLength | Discordia/src/planificador/synchronizer.c:88-100 | from the start of a cycle at most 6 steps per device and 4 more lead to the barrier opening |
| ScheduleRuns.ProtocolIsFair | Discordia/src/planificador/cpu.c:9-38 | what the planner assumes about the order of runs and returns is what the protocol provides under every interleaving |
| Planner.Planner.OneCycle | Discordia/src/planificador/planificador.c:326-352 | one round of the planner's loop on its queue objects is the cycle function |
| Planner.Planner.AdmitFromNewToReady | Discordia/src/planificador/planificador.c:371-389 | the loop over the queue objects ends where admission one by one ends; ScheduleMoves.NewsAdmitted says where that is |
| ScheduleMoves.NewsAdmitted | Discordia/src/planificador/planificador.c:371-389 | READY ends up as READY followed by NEW, in order, NEW is empty, each admitted member has its first task, and nothing else has changed |
| Planner.Planner.AdmitFromReadyToExec | Discordia/src/planificador/planificador.c:391-411 | the loop over the queue objects ends where dispatching one by one ends; ScheduleMoves.ExecFilled says where that is |
| ScheduleMoves.ExecFilled | Discordia/src/planificador/planificador.c:391-411 | the first of READY, exactly as many as EXEC has room for, are appended to EXEC in order, the rest of READY stays, and nothing else has changed |
| ScheduleMoves.CalmBegins | Discordia/src/planificador/planificador.c:326-352 | a cycle outside a sabotage begins so: READY followed by NEW, and as many of them as there are CPUs left go to the end of EXEC in that order, the others wait in READY |
| ScheduleLaws.RunOneMid | Discordia/src/planificador/tripulante/tripulante.c:108-129 | one run of a member in EXEC moves nobody, keeps everybody in place, and makes the member wait to block only at a blocking task or during a sabotage |
| ScheduleTasks.RunOneMember | Discordia/src/planificador/tripulante/tripulante.c:157-197 | one run changes this member alone, not its state, and its expulsion is requested exactly when it finishes its last task |
| Ways.RunsWalk | Discordia/src/planificador/tripulante/tripulante.c:131-155 | as many runs as it takes to get to the place, or fewer, lead the member that many places along its way, first along x and then along y, and change nothing else |
| ScheduleRuns.RunOneCloser | Discordia/src/planificador/tripulante/tripulante.c:206-216 | during a sabotage one run brings the member a step closer or, at the place, makes it wait to block, and touches nothing else |
| ScheduleLaws.IoStepMid | Discordia/src/planificador/io.c:18-100 | the device always finds a task to count down, and its work keeps everybody in place, nobody waiting to block elsewhere than in EXEC; what it does to them is said by the laws that follow |
| DeviceLaws.DeviceCounts | Discordia/src/planificador/io.c:36-78 | outside a sabotage a member in the device is still there after k cycles, for any k below the time of its task, with exactly k less to go, and nothing else has changed |
| DeviceLaws.DeviceReleases | Discordia/src/planificador/io.c:80-101 | after exactly as many cycles as its task takes it is out: at the end of READY with the first of its other tasks, or out of the crew if there is none |
| DeviceLaws.TakesHead | Discordia/src/planificador/io.c:27-34 | an idle device takes the head of BLOCK and works for it in the same cycle; the others keep their order |
| DeviceLaws.DeviceTurn | Discordia/src/planificador/io.c:18-52 | the same within a whole cycle of the planner: one cycle less to go, or out, unless its expulsion has been requested |
| DeviceLaws.DeviceRuns | Discordia/src/planificador/io.c:18-52 | over any history outside a sabotage: from one moment to another in the device, the time of a member's task goes down by exactly the number of cycles between, whatever else happens |
| DeviceWaits.DeviceServes | Discordia/src/planificador/io.c:18-52 | one cycle of the device takes exactly one off the wait of everybody in line, which is the time of the tasks up to their own, and whoever had one cycle left is through |
| DeviceWaits.NobodyStarves | Discordia/src/planificador/io.c:18-52 | over any history: a member in line is through with the device, or expelled, after as many cycles as it had to wait, unless a sabotage is announced before |
| ScheduleLaws.IoStepHoused | Discordia/src/planificador/io.c:18-100 | whom the device takes in, keeps, hands back or lets go is in exactly one place before and after |
| Planner.Planner.AlgorithmFifo | Discordia/src/planificador/planificador.c:200-237 | the walk over EXEC with removal ends where the walk on values ends, which SweepLaws.SweepLaw says member by member |
| Planner.Planner.AlgorithmRoundRobin | Discordia/src/planificador/planificador.c:239-289 | the same under round robin, where quanta run down |
| SweepLaws.SweepLaw | Discordia/src/planificador/planificador.c:200-289 | what the walk does to queues and to every member: whoever waits to block goes to the end of BLOCK, or of the frozen; under round robin with a fresh quantum; whoever has one cycle of the quantum left goes to the end of READY with a fresh one; under round robin everybody else stays with one cycle less, under FIFO with the quantum as it was; each group in the order of EXEC, and nobody else changes |
| SweepLaws.QuantumRuns | Discordia/src/planificador/planificador.c:239-289 | over any history outside a sabotage, under round robin: from one moment to another in EXEC without leaving it, a member's quantum goes down by exactly the number of cycles between |
| SweepLaws.NobodyOverstays | Discordia/src/planificador/planificador.c:239-289 | so, where everybody comes with a full quantum, nobody is in EXEC at more moments in a row than the quantum allows |
| Planner.Planner.InitSabotageRoutine | Discordia/src/planificador/planificador.c:546-634 | EXEC then READY are frozen in order of tid, and the first member with the least wrapped gap is sent |
| Planner.Planner.FindCloser | Discordia/src/planificador/planificador.c:600-622 | the loop finds the first frozen member with the least wrapped gap |
| ScheduleLaws.UnfreezeMid | Discordia/src/planificador/planificador.c:636-667 | at the end of the countdown the frozen are appended to READY in their order, nobody is frozen any more, and everybody is in place |
| ScheduleRuns.UnfreezeStates | Discordia/src/planificador/planificador.c:636-667 | everybody frozen is then in state READY, and all others are as they were |
| Planner.Planner.CheckExpulsions | Discordia/src/planificador/planificador.c:421-434 | the loop over the requests ends where serving them one by one ends; ScheduleMoves.RequestsServed says where that is |
| ScheduleMoves.RequestsServed | Discordia/src/planificador/planificador.c:421-434 | exactly the members requested leave the crew and the one place they were in, everybody else stays as and where they were, in order, and no request is left |
| Planner.Planner.FindAndTerminate | Discordia/src/planificador/planificador.c:436-543 | the member is looked for in one queue after the other and ended where it is found |
| ScheduleLaws.CycleKeeps | Discordia/src/planificador/planificador.c:326-352 | a whole cycle keeps every member in exactly one place, the one its state names, EXEC within the number of CPUs, and the sabotage in a proper phase |
| ScheduleTasks.AlwaysSupplied | Discordia/src/planificador/planificador.c:371-389 | after any history a member that came with tasks has one if it has been admitted and still has all to come if not: whoever finishes the last one is gone by the end of that cycle |
| ScheduleTasks.FullNeverFails | Discordia/src/planificador/tripulante/tripulante.c:108-129 | where everybody comes with tasks, a cycle with as many members in EXEC as CPUs never fails, whatever has happened before |
| ScheduleLaws.TerminateHoused | Discordia/src/planificador/planificador.c:436-543 | an expulsion takes the member out of its one place and leaves everybody else in theirs |
| ScheduleLaws.SweepFilters | Discordia/src/planificador/planificador.c:200-237 | removing while walking EXEC is an order-preserving filter, and those who block join BLOCK in their EXEC order |
| CycleFailures.FailsIff | Discordia/src/planificador/tripulante/tripulante.c:108-129 | from any good state, some cycle that the protocol of CPUs and barrier can run makes the program fail exactly when there is no sabotage and somebody in EXEC runs out of tasks within as many runs as there are CPUs without a member of their own |
| ProtocolOrders.AgainProduced | Discordia/src/planificador/cpu.c:9-38 | the protocol has a run in which everybody in EXEC runs once and then one member of one's choice as often as there are CPUs left |
| CycleFailures.RunAllFailsIff | Discordia/src/planificador/tripulante/tripulante.c:108-129 | running members in any order fails exactly when one of them, on its own, runs once more than its tasks last |
| CycleFailures.SpentIff | Discordia/src/planificador/tripulante/tripulante.c:157-197 | a member runs out of tasks within m runs exactly when none of its tasks blocks and the ways and times add up to m at most |
| CycleFailures.SecondStepFails | Discordia/src/planificador/tripulante/tripulante.c:108-129 | a concrete cycle that the protocol can run, with a CPU to spare, in which a member that has just finished its last task is run again without a task, which fails |
| ScheduleLaws.ClosestIs | Discordia/src/planificador/planificador.c:600-622 | the choice is the first member with the least wrapped gap, if some gap is below the bound |
| ScheduleLaws.ChosenIsClosest | Discordia/src/planificador/planificador.c:546-560 | no candidate has a smaller wrapped gap than the member sent |
| SabotageChoice.GapIsDistanceIff | Discordia/src/planificador/planificador.c:600-622 | the gap is the number of moves to the sabotage exactly when that fits in a word and the member is not beyond it in either coordinate, or beyond it by exactly half the range |
| SabotageChoice.NearestSent | Discordia/src/planificador/planificador.c:546-560 | if nobody is beyond the sabotage in either coordinate, the member sent is one with the fewest moves to make |
| SabotageChoice.AlwaysNearestIff | Discordia/src/planificador/planificador.c:546-560 | on a map whose coordinate sums fit in a word, a nearest member is sent from everywhere exactly when the sabotage is in the corner with the largest coordinates or no place is more than one move away from it |
| SabotageChoice.PassedOver | Discordia/src/planificador/planificador.c:600-622 | a concrete sabotage to which a member ten moves away is sent, although another one is one move away |
| ScheduleLaws.InitSabotageIff | Discordia/src/planificador/planificador.c:546-560 | the routine finds somebody to send exactly when some wrapped gap is below 2^32 - 1, or tid 0 is there |
| ScheduleLaws.SortCounts | Discordia/src/planificador/queues/queue_mt.c:133-141 | sorting a queue by tid loses and doubles nobody and puts the tids in order |
| ScheduleRuns.OnePlaceEach | Discordia/src/planificador/planificador.c:326-352 | after any history of starts, expulsions, sabotages and cycles every member is in exactly one queue or the I/O device, the one its state names |
| ScheduleRuns.FirstTurn | Discordia/src/planificador/planificador.c:546-560 | the first cycle after the announcement freezes everybody and sends the chosen member, with at most d + D + 2 further cycles of work left; or a request pending already expels it and nobody is on the way |
| ScheduleRuns.EngagedUntil | Discordia/src/planificador/planificador.c:636-667 | as long as the sabotage lasts, every cycle uses up some of the time left |
| ScheduleRuns.SabotageEnds | Discordia/src/planificador/planificador.c:546-667 | a sabotage whose chosen member is not expelled on its way is over within d + D + 2 cycles, at most one member is in READY and EXEC until then, and every frozen member is READY at its end; Countdown.SabotageLength has the lower bound |
| Countdown.CountsDown | Discordia/src/planificador/planificador.c:636-650 | over any history: from the moment the chosen member has blocked, the sabotage is on after each of the next D cycles, and the time that remains is D less exactly the cycles since |
| Countdown.WaitingExact | Discordia/src/planificador/planificador.c:636-650 | so from that moment on the sabotage stays on exactly as long as no more than D cycles have passed: the cycle after the first D ends it, and none before |
| Countdown.SabotageLength | Discordia/src/planificador/planificador.c:546-667 | a sabotage whose chosen member is not expelled on its way lasts at least D + 2 cycles and at most d + D + 2 |
| Countdown.PlaceAttended | Discordia/src/planificador/planificador.c:169-182 | the time begins to run only with a member at the place that was announced, or with one whose expulsion had been requested before |
| ScheduleRuns.SabotageEndsIff | Discordia/src/planificador/planificador.c:421-667 | for every history and every sabotage in it that gets the cycles due to it: it ends exactly when the chosen member is not expelled, directly or by a request that is served, before it has blocked at the place of the sabotage |
| ScheduleRuns.StruckStays | Discordia/src/planificador/planificador.c:421-434 | once the chosen member has been expelled on its way, the sabotage is on in every later state, with nobody in READY or EXEC |
| ScheduleRuns.ExpelledChosen | Discordia/src/planificador/planificador.c:421-434 | expelling the member on its way leaves a sabotage that nobody is on the way to |
| ScheduleRuns.AbandonedStays | Discordia/src/planificador/planificador.c:326-352 | no event gets anybody into READY or EXEC of such a sabotage, or ends it |
| ScheduleRuns.NeverOver | Discordia/src/planificador/planificador.c:326-352 | so however a history goes on, the sabotage is never over |
| LostSabotage.Dropped | Discordia/src/planificador/planificador.c:436-543 | a concrete history of an arrival, a cycle, a notification, a cycle and an expulsion while paused, after which nobody is on the way to the sabotage |
| LostSabotage.Asked | Discordia/src/planificador/planificador.c:421-434 | the same with an expulsion that is requested and served at the end of the next cycle |
| Queues.Queue.Push | Discordia/src/planificador/queues/queue_mt.c:62-69 | a push adds at the end, and a full bounded queue swallows it |
| Queues.Queue.PopByTid | Discordia/src/planificador/queues/queue_mt.c:81-99 | the first member with the tid leaves, the others keep their order |
| Queues.Queue.SortByLowestTid | Discordia/src/planificador/queues/queue_mt.c:133-141 | the queue ends up as insertion one by one makes it |
| Queues.SortIsTheLists | Discordia/src/planificador/queues/queue_mt.c:133-141 | that is the list's own sort with the comparator on tids |
| Queues.RemoveFrom | Discordia/src/planificador/planificador.c:441-465 | the walk with removal takes the member out, exactly when it is there, and skips nobody |
| Text.ListRoundTrip | I-Mongo-Store/src/fs/bitacora/bitacora.c:168-204 | printing a block list and parsing it back is the identity for every list of 32-bit ids, the empty one included |
| Text.IntRoundTrip | I-Mongo-Store/src/fs/bitacora/bitacora.c:131-134 | printing an integer in decimal and reading it back is the identity |
| Text.WriteList | I-Mongo-Store/src/fs/bitacora/bitacora.c:168-189 | the loop with the first-element flag prints the list |
| Text.SplitAt | dep/so-commons-library/src/commons/string.c:250-279 | the growing array of pieces is the text cut at the separators, empty pieces included; block lists and, under segmentation, task texts are cut by it |
| Text.ParseList | I-Mongo-Store/src/fs/bitacora/bitacora.c:191-204 | the list parsed is the one that splitting, trimming and converting each piece gives |
| Bitmap.MaskIsShift | dep/so-commons-library/src/commons/bitarray.c:21-30 | the mask of a bit is the one that the shift of 0x80 gives under LSB_FIRST |
| Bitmap.SetBit | dep/so-commons-library/src/commons/bitarray.c:50-52 | exactly that bit of the bitmap is set |
| Bitmap.CleanBit | dep/so-commons-library/src/commons/bitarray.c:54-62 | exactly that bit of the bitmap is cleared |
| Storage.ListGrows | I-Mongo-Store/src/fs/blocks/blocks_manager.c:244-263 | giving a list a free block keeps the set bits exactly the disjoint union of all lists |
| Storage.ListAdded | I-Mongo-Store/src/fs/bitacora/bitacora.c:32-43 | a new list with a free block keeps the same |
| Storage.ListDropped | I-Mongo-Store/src/fs/bitacora/bitacora.c:51-69 | dropping a list and clearing its bits keeps the same |
| Storage.WholeElsewhere | I-Mongo-Store/src/fs/blocks/blocks_manager.c:161-171 | a write into one block leaves what lists without it hold |
| Storage.WholeWritten | I-Mongo-Store/src/fs/blocks/blocks_manager.c:161-171 | a write into the last block of a list is that write at the end of what the list holds |
| Storage.RequestedSnoc | I-Mongo-Store/src/fs/blocks/blocks_manager.c:244-263 | the ids handed out by consecutive requests are the lowest free ones, one at a time |
| Appends.SpillStep | I-Mongo-Store/src/fs/bitacora/bitacora.c:101-109 | one turn of the loop, a request and a write, extends what the list holds by exactly the next bytes and leaves all other lists alone |
| Appends.ReachedAll | I-Mongo-Store/src/fs/bitacora/bitacora.c:95-109 | the loop asks for exactly as many blocks as the bytes beyond the last block need |
| Appends.LogCountIff | I-Mongo-Store/src/fs/bitacora/bitacora.c:86-109 | an append leaves max(1, ceil(size / block size)) blocks exactly unless nothing is appended to a content that ends where a block does |
| Appends.FileCountIff | I-Mongo-Store/src/fs/file/file.c:108-122 | filling leaves one block too few exactly when the content ended where a block does |
| Appends.LogAppended | I-Mongo-Store/src/fs/bitacora/bitacora.c:77-124 | a right log holds the longer text afterwards, and is right again except in that one case |
| Appends.FileAppended | I-Mongo-Store/src/fs/file/file.c:91-159 | a right file is right again exactly when its content did not end where a block does; otherwise the last block is overwritten |
| FileSystem.FileSystem.RequestBlock | I-Mongo-Store/src/fs/blocks/blocks_manager.c:244-263 | the lowest free block becomes used, or the result is 0 and nothing changes |
| FileSystem.FileSystem.ReleaseBlock | I-Mongo-Store/src/fs/blocks/blocks_manager.c:265-272 | exactly the bit of that block is cleared |
| FileSystem.FileSystem.WriteInBlock | I-Mongo-Store/src/fs/blocks/blocks_manager.c:161-171 | as much of the data as the block has room for is written there, and nothing else |
| FileSystem.FileSystem.ReadInBlock | I-Mongo-Store/src/fs/blocks/blocks_manager.c:173-183 | at most a block's bytes are read, from its beginning |
| FileSystem.FileSystem.CreateLog | I-Mongo-Store/src/fs/bitacora/bitacora.c:22-48 | a new log owns the lowest free block and is empty; the records stay sound exactly when there was one |
| FileSystem.FileSystem.AddContent | I-Mongo-Store/src/fs/bitacora/bitacora.c:77-124 | the log holds its content followed by the new bytes, in the blocks the requests gave, and no other log or file changes |
| FileSystem.FileSystem.GetContent | I-Mongo-Store/src/fs/bitacora/bitacora.c:143-162 | the content read back block by block is the log's text |
| FileSystem.FileSystem.DeleteLog | I-Mongo-Store/src/fs/bitacora/bitacora.c:51-69 | exactly the log's blocks become free, and every other record stays |
| FileSystem.FileSystem.CreateFile | I-Mongo-Store/src/fs/file/file.c:26-63 | a new file owns the lowest free block, and the byte written there disturbs nobody |
| FileSystem.FileSystem.AddFill | I-Mongo-Store/src/fs/file/file.c:91-159 | the file gets the blocks and bytes of the filling; it is right afterwards exactly when its content did not end where a block does |
| FileSystem.FileSystem.DeleteFile | I-Mongo-Store/src/fs/file/file.c:66-83 | exactly the file's blocks become free, and every other record stays |
| FileSystem.FileSystem.CheckBitmap | I-Mongo-Store/src/fs/blocks/blocks_manager.c:274-325 | from any bitmap, the bits below 8 * floor(count / 8) that belong to nobody are cleared, no other changes, and a change is reported exactly when there was one |
| FileSystem.RepairIff | I-Mongo-Store/src/fs/blocks/blocks_manager.c:217-225 | the repaired bitmap is the owned part of the old one exactly when the bits beyond the rounded-down bitmap need no clearing |
| FileSystem.RepairTwice | I-Mongo-Store/src/fs/blocks/blocks_manager.c:274-325 | a second repair changes nothing |
| FileSystem.RepairRestores | I-Mongo-Store/src/fs/blocks/blocks_manager.c:274-325 | from a bitmap that only gained bits, repair gets the right one back exactly when no bit that it never looks at was added |
| FileSystem.FileSystem.LogRun | I-Mongo-Store/src/fs/bitacora/bitacora.c:22-162 | for every sequence of non-empty appends with enough free blocks: the content read back is their concatenation, the blocks are the lowest free ones and exactly as many as needed, and no other log or file has changed |
| Dictionary.HashOf | dep/so-commons-library/src/commons/collections/dictionary.c:46-61 | the accumulation loop computes the hash code |
| Dictionary.HashOfOneLetter | dep/so-commons-library/src/commons/collections/dictionary.c:46-61 | the hash code of the one-letter text a, through every step of the mixing |
| Dictionary.Dictionary.Put | dep/so-commons-library/src/commons/collections/dictionary.c:63-95 | the map over hash codes gets the data, under the key that was there if any; the table doubles exactly when the last empty bucket is taken; table, chains and both counters stay exact, through a resize too |
| Dictionary.Dictionary.Get | dep/so-commons-library/src/commons/collections/dictionary.c:97-100 | the data found is the map's |
| Dictionary.Dictionary.HasKey | dep/so-commons-library/src/commons/collections/dictionary.c:140-142 | true exactly when the map has the key's hash code |
| Dictionary.Dictionary.GetElement | dep/so-commons-library/src/commons/collections/dictionary.c:241-260 | the walk along the chain finds the one element with the hash code, or none |
| Dictionary.Dictionary.Remove | dep/so-commons-library/src/commons/collections/dictionary.c:102-108 | the element leaves the map; the amount stays exact except that an element with null data goes on being counted |
| Dictionary.Dictionary.RemoveElement | dep/so-commons-library/src/commons/collections/dictionary.c:262-298 | unlinking from the head or the middle of a chain takes out exactly that element and keeps the count of non-empty buckets |
| Dictionary.Dictionary.Resize | dep/so-commons-library/src/commons/collections/dictionary.c:164-201 | after a resize the table has the new size, stands for the same map, and the count of non-empty buckets is right |
| Dictionary.TableIs | dep/so-commons-library/src/commons/collections/dictionary.c:241-260 | bucket number b has, each once, exactly the elements whose hash code leaves the remainder b, whatever has been put, removed or moved |
| Dictionary.Dictionary.Clean | dep/so-commons-library/src/commons/collections/dictionary.c:207-228 | the map is empty and both counters are 0 |
| Dictionary.RunRefines | dep/so-commons-library/src/commons/collections/dictionary.c:63-117 | over keys with pairwise distinct hash codes, every run of puts and removals leaves exactly the map over keys |
| Dictionary.LookupRefines | dep/so-commons-library/src/commons/collections/dictionary.c:97-100 | after such a run every lookup gives what the map over keys gives |
| Dictionary.SizeRefines | dep/so-commons-library/src/commons/collections/dictionary.c:148-150 | and the dictionary has as many elements as the map over keys |
| Dictionary.KeepsBothIff | dep/so-commons-library/src/commons/collections/dictionary.c:253-255 | two keys keep their own data exactly when their hash codes differ |
| Dictionary.LogsCollide | dep/so-commons-library/src/commons/collections/dictionary.c:46-61 | the keys of the logs of crew members 24600 and 24633 differ and have the same hash code |
| Dictionary.LogsShared | I-Mongo-Store/src/fs/bitacora/bitacoras_manager.c:175-177 | so a lookup of the first one's log no longer finds it once the second one has been put, and the second one's is kept under the first one's key |
| Lists.List.AddElement | dep/so-commons-library/src/commons/collections/list.c:410-423 | an element is linked in at the first place where the cutting condition holds, every other link and element stays |
| Lists.List.Unlink | dep/so-commons-library/src/commons/collections/list.c:371-381 | exactly the element at that place leaves the chain |
| Lists.List.Add | dep/so-commons-library/src/commons/collections/list.c:38-45 | the data goes to the end |
| Lists.List.Sort | dep/so-commons-library/src/commons/collections/list.c:254-275 | moving the nodes one by one into a new list leaves this list with insertion's result, without losing a node |
| Lists.SortedIs | dep/so-commons-library/src/commons/collections/list.c:254-275 | the result is in order; elements with equal keys keep their order under a reflexive comparator and come out reversed under a strict one |
| Lists.InsertPlace | dep/so-commons-library/src/commons/collections/list.c:265-268 | an element goes behind its equals when the comparator is reflexive, in front of them when it is strict |
| Lists.Iterator.Next | dep/so-commons-library/src/commons/collections/list.c:338-344 | the walk moves on by one place and knows the element before it |
| Lists.Iterator.Remove | dep/so-commons-library/src/commons/collections/list.c:346-352 | the element returned last leaves the list, and the walk stands at the one before it |
| Lists.RemoveAll | dep/so-commons-library/src/commons/collections/list.c:334-352 | a walk that removes some elements is an order-preserving filter: none is skipped |

## Left out

- Paging.Paging.InitPatota: requires that `8 + 21 * n` is not a multiple of the page size; at a multiple the frame recorded for the task text is one past the page (Paging.RecordedFrameRightIff says exactly when).
- Paging.Paging.InitMember: requires that no page under the next seat has been given up; with such a page the code writes to a frame that the patota no longer has (PagingLayout.SeatStaysIff says which expulsions do that).
- Paging.Paging: pages of 4 bytes or more, so that a word straddles two pages at most.
- Paging.Paging.LooksCleanIs: with a page given up early that still names a swap frame the check may refuse an expulsion that would go well, since the page tables do not say whether such a page lives anywhere; Paging.Paging.Expel has the exact condition.
- Segmentation.Segmentation.InitPatota: compaction is covered before the first request only; compaction between two requests of one admission, when seats already taken have no owner yet, is left out; SegmentFailures.BothRedirected shows two seats without a tid losing their segments.
- Segmentation.Segmentation.Compact: requires an address-ordered list with a hole and movable segments; Segments.StepTilesIff and SegmentTables.RedirectKeepsIff say exactly when it goes wrong without, SegmentFailures.OutOfOrder and SegmentFailures.BothRedirected where.
- Segmentation.Segmentation.InitMember: requires that nobody of the patota has been expelled, since the code would take an expelled seat, which has no segment, and write in front of the memory (SegmentTables.FreeSeatIff); and a tid other than 0xFFFFFFFF, the value that marks a seat nobody has.
- Segmentation.Segmentation.Expel: seats never taken keep their segments when the patota goes, as in the code: those bytes are lost for good, and the contract counts them as used.
- Equivalence.Comparison.Run: goes on for as long as Takes holds, which is what a caller can check on the state before an operation; for an expulsion and for a task counter that straddles pages under CLOCK that may be less than the exact conditions, which Equivalence.Comparison.ExpelBoth and Equivalence.Comparison.TaskBoth have.
- Planner.Planner.OneCycle: the order in which the CPUs ran the members and put them back is a parameter; ScheduleRuns.ProtocolIsFair says that the protocol only produces the orders assumed.
- ScheduleRuns.SabotageEndsIff: the sabotage is notified between cycles, and no tid of those frozen at its beginning is given out again before its end; a notification in the middle of a cycle is left out.
- ScheduleLaws.CycleKeeps: speaks of cycles that do not fail; CycleFailures.FailsIff says exactly when one can fail.
- FileSystem.FileSystem.AddContent: requires enough free blocks and that the disk's last byte is not reached, which the disk refuses; without a free block the code writes in front of its block array.
- FileSystem.FileSystem.AddFill: an amount of 0 is left out, since the code then returns with the file's lock held.
- FileSystem.FileSystem.CheckBitmap: in which order the ids are gathered and sorted before the loop does not matter to it and is not modelled.
- Dictionary.Dictionary.Resize: chains are sequences, so relinking of shared nodes is not modelled; table sizes do not overflow.
- Frame numbers, stamps, cycle counters and list lengths are unbounded; words in memory, tids, sizes in the log records and gaps have 32 bits.
- `paginacion_frame_esta_libre` has no return statement (Mi-RAM-HQ/src/memoria/esquemas/paginacion/paginacion.c:438-440); it is read as "not occupied". The stale `frame_swap` is kept as the code keeps it.
- Page table rows, patotas, segments and processes are values in sequence fields of the classes, not separately allocated objects; aliasing between pointers to them is not modelled.
- The overlapping forward copy of compaction is a move; `malloc` never fails.
- Expulsion while a pause has been requested and a cycle is still running, spurious wakeups, the messages to the memory and to the logs, and the first-execution flag of a crew member.
- Locks are held as the code holds them: an operation of the memories, the file system, the dictionary and the list is one atomic step; only the cycle of CPUs, I/O device and planner is interleaved.
- Removing fill characters, the MD5 of files and the repair of file records; loading logs and files that exist already; the size check of the disk.
- Reference counting in the file and log managers, memory dumps, sockets, consoles, maps, parsers of commands and tasks.
