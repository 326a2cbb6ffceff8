# DreamGPU guest transport: a verified model

DreamGPU's guest drivers turn an application's OpenGL and Glide 3 calls into
records, pack them, and hand them to a host device through a ring of sixteen
entries in shared memory. This project models that path and the data
structures around it, and proves what they are for: whatever the interleaving,
the failures and the sizes involved, the host executes what was issued, in the
order it was issued, on the state the frontend believes it has.

`dafny verify dfyconfig.toml` checks everything. Five groups:

1. **Queued transport.** `QueueProtocol` is one enabled session as a state
   machine: the driver's steps interleaved with those of two device threads
   (one consumes entries, one completes them) over one page of 32-bit words,
   with the arm/fence/recheck sleep step by step and engine resets at any
   point. Its theorems hold in every reachable state. `QueueGuest` holds the
   driver's own methods (fault table, reap, lose, publish), `FaultTable` what
   the table means over any run of failures, takes and drops, `RequestRetry`
   why repeated requests end. `DeferredRelease` is the frontend above it:
   packets, full-packet flushes, deferred release, context creation, switching
   and deletion and queries, with every outcome a request can have.
   `SubmissionLedger` says what order and loss mean, `PacketLine` what each step
   does to the packets that wait, `LossCauses` why a run loses a record.
2. **Draw packing.** `DrawSplit` (splitting), `ArrayLayout` (aligned layouts),
   `ArrayPointers` (the calls that set arrays, against those layouts),
   `VertexCapture` and `ClientDraw` (capture, packets, the whole draw),
   `RangedDraw` (the indexed draw that carries each vertex once), `DataRecord`
   (what one packet's data record can hold).
3. **Name tables.** `ProbeTable` (backward-shift deletion, any power-of-two
   capacity, any payload), `ObjectNames` (its framebuffer and renderbuffer
   users), `TextureNames` (tombstones). All against plain maps.
4. **Mirrors and caches.** `BufferMirror` with `BufferHost` (vertex buffer
   copies against the host replaying the records), `SettledCache` with
   `SettledTable` (query results and fences), `CompressedBands` (image bands).
5. **Two more state machines.** `GlideSetup` (primitive assembly and its
   continuations) and `TraceRecorder` (the concurrent trace recorder).

`Words` is 32-bit arithmetic: wrapping words, masks of power-of-two tables.

## Assumptions

- The device and the host obey the text of `guest/include/gl.h`; the host's
  refusals (storage it does not admit, queries it rejects) are parameters.
- The driver's answers to the frontend are one arbitrary function of the
  request's number (`Frontend.Replies`): failures reported for other contexts,
  taken or refused, known or not. `Clean` answers report nothing and take it.
- The window system's part in publishing the front buffer is one arbitrary
  function too (`Frontend.Fronts`): the window's size matches, it was presented.
- Allocation results, window geometry, replies and the host's own steps are
  parameters or nondeterministic choices; every value is covered.
- Fields that only the model keeps (`History`, `Records`, `Born`, `admitted`,
  `Remote`, the sequences of a `QueueProtocol.State`) record what has happened
  so that theorems can speak of it. No branch of the frontend reads them.

## Results about the code worth knowing

- **Command buffer reuse.** Buffer `index % BufferCount` is safe for ever
  exactly when `BufferCount` divides 2^32. Otherwise two batches less than
  `BufferCount` apart share a buffer when the index wraps
  (`BufferReuseIsSafeIff`); before 2^32 publishes every count is safe.
- **Order across contexts.** Switching contexts keeps issue order. Creating or
  deleting a context while another one is current sends its control record
  ahead of the records that the current context still holds, and it is out of
  order exactly when there are such records (`ControlAside`, `Delete`,
  `RecordKeepsLine`); `OvertakingHappens` is such a run.
- **Leaving Begin/End.** A healthy context that stops being current inside
  Begin/End loses exactly what its packet holds (`Leave`), can never be made
  current again, and none of those records is accepted in any run that follows,
  its deletion included (`LeaveInBegin`). Apart from that, records are lost only
  by contexts that fail; while answers are clean, and every glBegin is ended
  before a switch or deletion, nothing is lost (`Run`). Five calls on a new
  frontend with clean answers lose a record that way (`LossHappens`).
- **Interrupted glGenTextures.** All-or-none fails once native display lists
  have been used: a host query that fails leaves the names found before it
  reserved, without an error. With two names, the first query answered and the
  second failing, one stays (`OneOfTwoStays`). All are reserved exactly when
  there is room and every query is answered that asks about a candidate while
  names are wanted (`CompleteIff`); the names, the counter and the ending follow
  from what holds before the call (`OneResult`).
- **Refused records.** A draw or an image transfer whose record finds no room
  stops there: what went out draws the first whole primitives (`ClientDraw.Draw`)
  or covers the blocks before a point of the order (`Bands`).
- **Refused storage.** A buffer copy differs from the host's store exactly when
  the host refused its last, nonempty BufferData (`CopyIsHostIff`); if it refuses
  none, every copy that is not mapped for writing is equal (`Buffers.Run`).
- **Binding identity.** A binding resolves to another object of its name
  exactly when a whole number of 2^32 - 1 serials lie between (`ResolvesIff`).
- **Glide continuation.** Points and lines empty the setup unit but keep its
  parity, so a strip continuation after them is a fresh strip exactly when the
  parity was even or its triangles' first two vertices agree
  (`ContinueAfterPointsIff`).
- Where text and code differ the model follows the code: `TakeFault` reports the
  matching record in the lowest slot, not the oldest one, and a full settled
  table replaces its slots in turn, which after a removal is not oldest first.

## Model

| member | source | states |
|---|---|---|
| ProbeTable.SearchAgreesWithMap | guest/opengl/framebuffer.cpp:67-73 | a probe stops at the name's entry exactly when the plain map of the table holds the name, with the map's payload, else at an empty slot |
| ProbeTable.StoreKeepsChains | guest/opengl/framebuffer.cpp:111-123 | storing where the search stopped keeps every name reachable from its hash slot |
| ProbeTable.StoreUpdatesMap | guest/opengl/framebuffer.cpp:111-123 | storing changes the map at that name only |
| ProbeTable.EmptyingStartsShift | guest/opengl/framebuffer.cpp:74-79 | the emptied slot is the only break in any chain |
| ProbeTable.MovingKeepsShift | guest/opengl/framebuffer.cpp:84-91 | moving an entry whose chain crosses the hole keeps all other chains, payloads and the map, and moves the break |
| ProbeTable.PassingKeepsShift | guest/opengl/framebuffer.cpp:84-91 | an entry that the masked-distance test passes over did not need to move |
| ProbeTable.EmptySlotEndsShift | guest/opengl/framebuffer.cpp:80-83 | at the next empty slot no chain is broken any more |
| ProbeTable.MaskedSteps | guest/opengl/framebuffer.cpp:86-87 | `(a - b) & (n - 1)` of wrapping words is the circular distance, for every power-of-two table |
| ProbeTable.NameTable.Find | guest/opengl/framebuffer.cpp:67-73 | the unbounded probe ends, at the entry of the map or at the empty slot ending the chain |
| ProbeTable.NameTable.Store | guest/opengl/framebuffer.cpp:111-123 | new map and count |
| ProbeTable.NameTable.Remove | guest/opengl/framebuffer.cpp:74-92 | the shift loop ends and removes exactly the entry's name, all other names and payloads unchanged |
| ProbeTable.NameTable.NextUnused | guest/opengl/framebuffer.cpp:99-105 | the loop over wrapping candidates ends at a nonzero unused name |
| ProbeTable.UsedRunFits | guest/opengl/framebuffer.cpp:99-105 | pigeonhole: a wrapping counter cannot stay on used names longer than there are names |
| ProbeTable.NameTable.Generate | guest/opengl/framebuffer.cpp:94-110 | all or none: with room exactly count distinct nonzero unused names are reserved, otherwise nothing changes |
| ObjectNames.CreateObject | guest/opengl/framebuffer.cpp:111-123 | succeeds exactly for known names or below the limit; the map gains that object only; a null table fails |
| ObjectNames.ObjectExists | guest/opengl/framebuffer.cpp:124-127 | true exactly for a nonzero name whose object exists in the map |
| ObjectNames.ForgetName | guest/opengl/framebuffer.cpp:128-137 | removes the name and says whether it named an object |
| ObjectNames.RunAgreesWithMap | guest/opengl/framebuffer.cpp:63-137 | every run of generate, create, test and forget answers as a plain map with the same limit does |
| TextureNames.ChainEnds | guest/opengl/names.h:27-43 | at a never-used slot, or after a whole round, the name is not in the table |
| TextureNames.ReuseKeepsLinks | guest/opengl/names.h:33-42 | reusing the first free slot hides no later entry of any chain |
| TextureNames.ReuseUpdatesMap | guest/opengl/frontend.cpp:1336-1358 | storing there changes the map at that name only |
| TextureNames.TombstoneForgets | guest/opengl/frontend.cpp:1390-1396 | a tombstone removes exactly its name and breaks no chain |
| TextureNames.TextureTable.FindName | guest/opengl/names.h:27-43 | within one round: the name's entry, or the first free slot of its chain; below half capacity never null |
| TextureNames.TextureTable.GenTextures | guest/opengl/frontend.cpp:1276-1302 | nothing without room; else exactly the next nonzero names from the counter on that are not used here nor, with native lists, on the host: all of them, or those before the first query that fails; the counter ends just behind the last candidate; ends although candidates wrap |
| TextureNames.CompleteIff | guest/opengl/frontend.cpp:1276-1302 | in terms of the map, the counter, the host and the answers before the call: all names are reserved exactly when there is room and, with native lists, every query asked while names are wanted is answered; the map gains the stored names only |
| TextureNames.OneResult | guest/opengl/frontend.cpp:1276-1302 | the state before the call and the answers settle the names, the ending, the counter and the map |
| TextureNames.OneOfTwoStays | guest/opengl/frontend.cpp:1289-1295 | two names, the first query answered, the second failing: exactly one name stays reserved, the first candidate without a name |
| TextureNames.TextureTable.BindTexture | guest/opengl/frontend.cpp:1317-1358 | exactly when each error is raised; otherwise the map takes the target; name 0, and any name under native lists, is forwarded and leaves the map |
| TextureNames.TextureTable.IsTexture | guest/opengl/frontend.cpp:1362-1381 | true exactly for a name bound before or, under native lists, one the host's answer says it has |
| TextureNames.TextureTable.ForgetTextures | guest/opengl/frontend.cpp:1382-1399 | the map loses exactly the listed names |
| TextureNames.RunAgreesWithMap | guest/opengl/frontend.cpp:1261-1399 | every run of generate, bind, test, forget and list mode on the hash table answers as a plain bounded map with a wrapping counter does, name for name |
| FaultTable.AddHoldsFirst | guest/include/dg-gl-queue.h:90-105 | the first failure of a (token, stream) is the one held, one record each; others untouched; lost only from a full table |
| FaultTable.TakeReportsOnce | guest/include/dg-gl-queue.h:108-124 | reports a held failure of the client (and stream) whenever there is one, and drops exactly that one |
| FaultTable.DropForgetsClient | guest/include/dg-gl-queue.h:126-131 | forgets exactly the client's records |
| FaultTable.HeldRecordIsEarliest | guest/include/dg-gl-queue.h:90-131 | over any run, a held record is the earliest failure of its stream since that was last taken or dropped, but for failures that met a full table |
| QueueGuest.ReachedIsComparison | guest/include/dg-gl-queue.h:74-76 | the signed 32-bit difference test is the comparison of the unbounded counters less than 2^31 apart |
| QueueGuest.GlQueue.AddFault | guest/include/dg-gl-queue.h:90-105 | the two loops compute AddFault |
| QueueGuest.GlQueue.TakeFault | guest/include/dg-gl-queue.h:112-124 | the loop computes TakeFault and returns the record it drops |
| QueueGuest.GlQueue.DropClient | guest/include/dg-gl-queue.h:126-131 | computes DropClient |
| QueueGuest.GlQueue.Lose | guest/include/dg-gl-queue.h:135-145 | every unreaped asynchronous entry becomes a fault, the session ends |
| QueueGuest.GlQueue.Reap | guest/include/dg-gl-queue.h:148-168 | settles up to a trusted COMPLETED in order, or loses the session |
| QueueGuest.GlQueue.Publish | guest/include/dg-gl-queue.h:277-309 | fills every word of slot and owner, the fault domain only when both its names are given, then publishes exactly one entry |
| QueueProtocol.ReachableKeepsInv | guest/include/dg-gl-queue.h:64-330 | every interleaving of driver and device steps keeps the session invariant |
| QueueProtocol.CountersStayOrdered | guest/include/dg-gl-queue.h:148-168 | reaped <= completed <= consumed <= produced <= reaped + 16, and the 32-bit tests agree with the unbounded counters across wraparound |
| QueueProtocol.HoldsIsComparison | guest/include/dg-gl-queue.h:202-209 | the driver's test of a wait word is the comparison of counts it can see |
| QueueProtocol.DeviceCopiesWhatWasPublished | guest/include/gl.h:397-423 | the device's copies are the published entries and command bytes, in order, none torn or missed |
| QueueProtocol.NothingPublishedIsRewritten | guest/include/dg-gl-queue.h:247-309 | no unreaped entry slot and no unconsumed command buffer is written |
| QueueProtocol.BufferReuseIsSafeIff | guest/include/dg-gl-queue.h:247-275 | indices less than n apart use different buffers exactly when n divides 2^32 |
| QueueProtocol.NoLostWakeup | guest/include/dg-gl-queue.h:211-243 | a sleeper whose target is reached has its interrupt pending or the device still has to read WAIT |
| QueueProtocol.DeviceWakesSleeper | guest/include/gl.h:414-419 | the device's own next steps, a fence and a read of WAIT at most, then wake it |
| QueueProtocol.SuccessIsReached | guest/include/dg-gl-queue.h:211-243 | result 1 only with the counter at or past the target |
| QueueProtocol.WaitSucceeds | guest/include/dg-gl-queue.h:211-243 | a waiter awake whose target the page shows reached returns success within seven of its own steps |
| QueueProtocol.WaitIsLost | guest/include/dg-gl-queue.h:211-243 | after a reset it returns the loss, unless the counter was reached before |
| QueueProtocol.WaitEndsOrSleeps | guest/include/dg-gl-queue.h:211-243 | left to itself the driver never spins: within eight steps a wait is over or asleep, whatever has happened |
| QueueProtocol.TimeoutEndsWait | guest/include/dg-gl-queue.h:234-241 | a sleep that ran out ends the wait: lost after a reset, success when the target is reached after all, else the watchdog's failure |
| QueueProtocol.WakesForOwnTarget | guest/include/dg-gl-queue.h:211-243 | an interrupt ends a sleep only after that sleep's own target was reached, and WAIT is armed only around a sleep |
| QueueProtocol.RingWaitIff | guest/include/dg-gl-queue.h:247-261 | a caller waits for a slot exactly when sixteen published entries show as uncompleted |
| QueueProtocol.SpaceWaitIff | guest/include/dg-gl-queue.h:262-268 | it waits for a buffer exactly when the buffer's last use does not show as copied |
| QueueProtocol.WaitThenGoesOn | guest/include/dg-gl-queue.h:247-273 | a wait for a slot or a buffer whose target is reached goes on to the next stage |
| QueueProtocol.FailuresAreAccounted | guest/include/dg-gl-queue.h:135-168 | each entry settles once, in order, with the device's outcome or as lost; the fault table hears every asynchronous failure exactly once |
| QueueProtocol.LossSettlesAll | guest/include/dg-gl-queue.h:135-168 | the reap after a reset settles all published entries and ends the session |
| QueueProtocol.ResetSettlesAll | guest/include/dg-gl-queue.h:135-168 | a reset between calls: the next reap ends the session and settles everything not settled before as LOST |
| QueueProtocol.AnswersAreOwnOutcomes | guest/include/dg-gl-queue.h:312-330 | a synchronous request is answered with its own entry's outcome, never a reused slot's: status, bytes and type as written, the error only with the ERROR bit; without DONE it is DONE and ERROR with the transport error |
| QueueProtocol.AnswersGrowByOne | guest/include/dg-gl-queue.h:312-330 | a successful wait for an entry answers exactly once, for the entry published last; no other step answers |
| QueueProtocol.RequestIsServed | guest/include/dg-gl-queue.h:247-330 | on a session at rest the steps of both sides alone copy the very command, answer with the device's outcome and leave the session at rest |
| RequestRetry.ReapKeepsPending | guest/include/dg-gl-queue.h:148-168 | reaping or losing turns unreaped failures into held ones without adding any |
| RequestRetry.TakeDropsOne | guest/include/dg-gl-queue.h:112-124 | a report lowers the pending failures by one |
| RequestRetry.Submit | guest/nt/miniport/transport.cpp:1475-1549 | a client's held failure is reported and freed before anything runs; a request skipped behind its own stream reports that failure; reports only lower what is pending |
| RequestRetry.Request | guest/opengl/frontend.cpp:323-351 | the retry loop ends, whatever the device does between and during repetitions; each repetition but the last answered with another stream's failure, a returned DEFERRED is the caller's own stream |
| SubmissionLedger.IssueInserts | guest/opengl/frontend.cpp:391-399 | a new record keeps order, uniqueness and completeness; it overtakes exactly when records wait behind its place |
| SubmissionLedger.DropLoses | guest/opengl/frontend.cpp:412-420 | dropping a packet loses exactly its records, each issued one staying either in line or lost, and keeps the order of the rest |
| SubmissionLedger.NothingLostInOrder | guest/opengl/frontend.cpp:391-399 | with nothing lost and nothing overtaken, what was accepted and what waits are exactly the issued records in order |
| DeferredRelease.Frontend.Request | guest/opengl/frontend.cpp:312-351 | the answer is the driver's; exactly the contexts it reports, other than the stream's own, are marked, and nothing else of any context changes |
| DeferredRelease.Frontend.Send | guest/opengl/frontend.cpp:403-422 | asks the driver exactly when the context is healthy, not told of a failure now and has something to send; exactly what its own entry and the others' are afterwards |
| DeferredRelease.Frontend.Flush | guest/opengl/frontend.cpp:400-422 | exactly the released context's packet, then the own one, is accepted; what is lost is the packet of whichever of the two failed; clean answers fail none, and a context reported before is failed by the flush unless it is cleanup's |
| DeferredRelease.Frontend.SubmitReleased | guest/opengl/frontend.cpp:427-435 | the released packet goes out, unless it is the caller's own |
| DeferredRelease.Frontend.Record | guest/opengl/frontend.cpp:436-457 | the record joins its packet, flushed first when full; the packet never exceeds its word or record limit; no other context gains anything |
| DeferredRelease.Frontend.Control | guest/opengl/frontend.cpp:710-723 | one record by itself; nothing pending is dropped but a failed context's packet |
| PacketLine.FlushKeepsLine | guest/opengl/frontend.cpp:400-435 | a flush with any outcome keeps the order of accepted and waiting records and loses only failed contexts' records |
| PacketLine.RecordKeepsLine | guest/opengl/frontend.cpp:436-457 | a record of a context with records of the current one waiting behind it is out of issue order, any other is in order |
| DeferredRelease.Frontend.PublishFront | guest/opengl/frontend.cpp:1698-1707 | drawing to the front buffer is over exactly when it was presented; without any nothing happens |
| DeferredRelease.Frontend.FlushCurrent | guest/opengl/frontend.cpp:724-733 | outside Begin/End nothing of the current context waits afterwards, and it succeeds exactly when the context stays healthy and front-buffer drawing, if the window still has its size, was presented; inside, nothing happens |
| DeferredRelease.Frontend.ReleaseCurrent | guest/opengl/frontend.cpp:739-751 | with the queue nothing is issued; the packet takes the released place and an older one goes out first |
| DeferredRelease.Frontend.MakeCurrent | guest/opengl/frontend.cpp:1437-1532 | order is kept on every path; failure leaves no context current; between quiet contexts the switch sends nothing and keeps both packets; a healthy created context on a visible window becomes current while answers are clean |
| DeferredRelease.Frontend.Leave | guest/opengl/frontend.cpp:1444-1453 | the old context is flushed or released; healthy inside Begin/End the call fails, sends nothing, and exactly the records of its packet become lost; a failed context is left without a request |
| DeferredRelease.Frontend.LeaveInBegin | guest/opengl/frontend.cpp:1441-1526 | after that, in any run with any answers, none of those records is accepted and the context is never current |
| DeferredRelease.Frontend.Enter | guest/opengl/frontend.cpp:1458-1522 | the new context continues its own released packet; a healthy one on its own window needs no request; one inside Begin/End or being deleted is refused and nothing is sent; success leaves it with its own drawable of the window's size, the last one when minimized |
| DeferredRelease.Frontend.EnterDrawable | guest/opengl/frontend.cpp:1482-1513 | drawable replacement goes behind the commands drawn to the old one; success leaves a drawable of that size joined to the context |
| DeferredRelease.Frontend.EnterReplace | guest/opengl/frontend.cpp:1482-1489 | what was drawn to the old drawable is flushed, then one record destroys it; success leaves none, with no front-buffer drawing |
| DeferredRelease.Frontend.ControlAside | guest/opengl/frontend.cpp:710-723 | a control record of another context overtakes exactly when the current one still holds records |
| DeferredRelease.Frontend.Create | guest/opengl/frontend.cpp:1232-1252 | a fresh empty context, or none; the others are untouched; with clean answers it succeeds; its record is out of order exactly when the current context holds records |
| DeferredRelease.Frontend.Delete | guest/opengl/frontend.cpp:1533-1585 | outside Begin/End every record the context still had to send is accepted, unless it was in trouble before or an answer is not clean; nobody else's loss is its doing; deleting another context than the current one overtakes exactly when a control record is issued while the current one holds records; it succeeds exactly when the name is free, always so for a healthy context with clean answers |
| DeferredRelease.Frontend.Query | guest/opengl/frontend.cpp:991-1072 | everything issued before goes out before the query; answered exactly when its request is taken and the context stays healthy, always so with clean answers; afterwards nothing waits |
| DeferredRelease.Frontend.QuerySend | guest/opengl/frontend.cpp:1025-1067 | answered exactly for a taken, well-formed reply; the context fails exactly for a malformed one, an earlier failure or an unknown outcome, and goes on after a plain refusal |
| DeferredRelease.Frontend.Bracket | guest/opengl/frontend.cpp:1880-1905 | glBegin and glEnd issue their record exactly when they change the state, and change nothing else of the context |
| DeferredRelease.Frontend.GlFlush | guest/opengl/frontend.cpp:1906-1917 | afterwards nothing of the current context waits |
| DeferredRelease.Frontend.Run | guest/opengl/frontend.cpp:391-457 | over any run with any answers, operation by operation what is issued and which context is current; each context's records stay in order, each issued one is once in line or lost and then never accepted; only contexts that failed, were deleted or were left inside Begin/End lose any, with clean answers only the last; what a context had to send when it was reported is never accepted; overtaking needs a creation or deletion; nothing lost nor overtaken, accepted and waiting are what was issued |
| DeferredRelease.LossHappens | guest/opengl/frontend.cpp:1441-1447 | a run from the start with clean answers: create, make current, begin, one command, switch away; a record is lost |
| DeferredRelease.OvertakingHappens | guest/opengl/frontend.cpp:1232-1252 | a run from the start with clean answers: a second context's creation is accepted while an earlier record still waits |
| LossCauses.WaitedIsAccepted | guest/opengl/frontend.cpp:391-435 | what a context had to send and no longer has was accepted, unless it failed or was deleted or left inside Begin/End |
| LossCauses.NothingLost | guest/opengl/frontend.cpp:391-435 | with clean answers and no context in trouble, and none left inside Begin/End, nothing is lost |
| LossCauses.ExplainedFlushed | guest/opengl/frontend.cpp:400-435 | a flush loses only what contexts that failed in it still had to send, and with clean answers only those in trouble before |
| LossCauses.TroubleFlushed | guest/opengl/frontend.cpp:311-435 | no flush accepts anything that a reported or failed context had to send before, cleanup's own record aside, and such a context stays in trouble |
| PacketLine.LineInOrder | guest/opengl/frontend.cpp:391-399 | the invariant that every operation keeps means exactly that |
| PacketLine.WaitsWhere | guest/opengl/frontend.cpp:391-399 | a healthy context outside Begin/End holds records only while it is current or released |
| ArrayLayout.SectionsAreDisjoint | guest/include/gl-arrays.h:47-76 | sections are in order, disjoint, aligned to their component and inside the payload |
| ArrayLayout.LayoutIsMonotone | guest/include/gl-arrays.h:47-76 | more vertices never make a section start earlier or the payload shorter |
| ArrayLayout.LayoutFitsWord | guest/include/gl-arrays.h:47-120 | with at most DG_GL_MAX_VERTICES vertices no 32-bit sum overflows |
| ArrayLayout.PlaceSections | guest/include/gl-arrays.h:54-72 | succeeds exactly when every slot's descriptor is admitted; then its offsets and length are the layout's |
| ArrayLayout.RawArrayLayoutSlots | guest/include/gl-arrays.h:47-76 | the same for the seven- and sixteen-slot draws, with the exact admission condition |
| ArrayLayout.RawAttribLayout | guest/include/gl-arrays.h:93-120 | the same for the attribute draw |
| DrawSplit.PacketAdvances | guest/opengl/arrays.cpp:909-954 | for every mode a packet fits, advances, ends at a boundary and makes the primitives between its ends |
| DrawSplit.PacketDrawsNext | guest/opengl/arrays.cpp:909-954 | a packet's primitives are the unsplit draw's next ones, orientation included |
| DrawSplit.Split | guest/opengl/arrays.cpp:909-954 | for any capacity >= 4 the loop ends and the packets' primitives, concatenated, are the unsplit draw's |
| DrawSplit.AssemblyIs | guest/opengl/arrays.cpp:909-954 | what a draw's primitives are, as the table of section 2.6.1: which exist and with which vertices |
| VertexCapture.PackedAt | guest/opengl/arrays.cpp:778-826 | vertex v of a packed section is the wire form of the picked vertex |
| VertexCapture.CopiedBytes | guest/opengl/arrays.cpp:773-826 | an element of a type that travels as it is consists of the application's bytes at the array's own stride, or packed without one |
| VertexCapture.BgraBytes | guest/opengl/arrays.cpp:782-797 | BGRA elements travel as bytes 2, 1, 0, and 3 but for the secondary colour |
| VertexCapture.ConvertedBytes | guest/opengl/arrays.cpp:798-806 | each component of a converted element comes from its own unit of memory |
| VertexCapture.BuiltHolds | guest/opengl/arrays.cpp:766-830 | reading at the layout's offset gives each enabled attribute of each vertex, whatever follows |
| VertexCapture.TightRun | guest/opengl/arrays.cpp:807-810 | copying a tightly packed run in one piece equals copying element by element |
| VertexCapture.CaptureStrided | guest/opengl/arrays.cpp:811-815 | the strided loop writes exactly the packed section |
| VertexCapture.CaptureIndexed | guest/opengl/arrays.cpp:778-826 | so does the loop over chosen vertices, fan packets included, whichever conversion an element takes |
| VertexCapture.CaptureArray | guest/opengl/arrays.cpp:773-828 | whichever path is taken, the section is the same |
| ClientDraw.CaptureSections | guest/opengl/arrays.cpp:766-830 | fills every section, and zeros every byte between sections |
| ClientDraw.CaptureVertices | guest/opengl/arrays.cpp:831-838 | every byte of the payload is written: descriptors, sections, zeros |
| ClientDraw.CaptureRoundTrip | guest/opengl/arrays.cpp:766-838 | the host's reading of a captured payload gives each vertex's wire form back |
| ClientDraw.SectionsRoundTrip | guest/opengl/arrays.cpp:766-838 | the same for any payload that starts with the sections; the host finds the frontend's layout |
| ClientDraw.CaptureLayout | guest/opengl/arrays.cpp:759-765 | succeeds exactly for admitted formats and sizes, with the layout's offsets |
| ClientDraw.CapturePacket | guest/opengl/arrays.cpp:911-955 | each record carries its chunk's vertices and passes the host's own checks of its layout and length |
| ArrayPointers.PointerSetsIff | guest/opengl/arrays.cpp:58-118 | a call stores its arguments exactly when what they name is negotiated and the host's layouts take the format |
| ArrayPointers.AcceptedIff | guest/opengl/arrays.cpp:58-118 | a slot can be set to exactly the formats that the host's layouts take in it |
| ArrayPointers.AdmittedIff | guest/include/gl-arrays.h:34-128 | the layout check admits exactly the draws with positions, at most 65536 vertices and such formats: it refuses none that the pointer calls accepted |
| ArrayPointers.DescriptorTaken | guest/opengl/arrays.cpp:886-901 | an array's descriptor is never zero, passes its slot's rule exactly for those formats, and asks for normalization exactly for normalized integers |
| ClientDraw.PacketCapacity | guest/opengl/arrays.cpp:890-908 | the largest vertex count that fits the packet: it fits and no larger one does |
| ClientDraw.IndexBounds | guest/opengl/arrays.cpp:408-427 | lowest and highest index of the draw |
| ClientDraw.CheckRanges | guest/opengl/arrays.cpp:431-436 | true exactly when every enabled array addresses every vertex |
| ClientDraw.Draw | guest/opengl/arrays.cpp:840-955 | exactly when each error is raised: an index pointer null or wrapping, or a vertex of the draw without number or address; otherwise each record fits its packet, names exactly the caller's arrays in its masks and shows through them, vertex by vertex, what first or the indices name; together they draw the unsplit draw or, up to a refused record, its first primitives |
| ClientDraw.InRangeIff | guest/opengl/arrays.cpp:431-436 | an array reaches a vertex exactly when it has an address and the element ends inside the address space |
| DataRecord.DataFitsIff | guest/opengl/frontend.cpp:914-943 | a payload is within the limit exactly when its record fits a packet |
| RangedDraw.CopyIndices | guest/opengl/arrays.cpp:970-987 | the written indices are the clamped ones |
| RangedDraw.ClampedAt | guest/opengl/arrays.cpp:970-987 | read back, each is within the carried range whatever memory held |
| RangedDraw.ClampingScannedIsIdentity | guest/opengl/arrays.cpp:970-987 | for indices unchanged since the scan clamping changes nothing |
| RangedDraw.RecordRefines | guest/opengl/arrays.cpp:1209-1273 | index by index the record names the vertex the draw named, with its bytes |
| RangedDraw.RecordAgreesWithExpansion | guest/opengl/arrays.cpp:1209-1273 | vertex by vertex the same bytes as the expanded draw's packets |
| RangedDraw.RecordIsInside | guest/opengl/arrays.cpp:988-1007 | every index of every record stays inside the carried sections |
| RangedDraw.CaptureBuffer | guest/opengl/arrays.cpp:988-1007 | writes every byte: descriptors, sections, indices, zeros |
| RangedDraw.Ranged | guest/opengl/arrays.cpp:1209-1273 | taken exactly when available, the index pointer neither null nor wrapping, admitted, no larger than the expansion and within one packet; then, through its own masks, the host reads index by index the vertex and bytes that the caller's indices name |
| BufferHost.StoredInParts | guest/opengl/buffer.cpp:132-145 | two adjacent stores are one |
| BufferHost.SubmitContents | guest/opengl/buffer.cpp:133-145 | bounded slabs, all but the last full, that the host stores as the whole range |
| BufferMirror.SameSerialIff | guest/opengl/buffer.cpp:195 | two serial draws agree exactly a multiple of 2^32 - 1 apart |
| BufferMirror.ResolvesIff | guest/opengl/buffers.h:37-44 | a binding resolves exactly when its name's object is a whole number of wraps younger than the one it latched |
| BufferMirror.ResolvesToItsOwn | guest/opengl/buffers.h:37-44 | before the wrap it resolves to its own object or to nothing |
| BufferMirror.Buffers.BoundBuffer | guest/opengl/buffer.cpp:117-130 | the object of the binding, or none |
| BufferMirror.Buffers.GenBuffers | guest/opengl/buffer.cpp:147-174 | names without objects, all or none, with the exact error |
| BufferMirror.Buffers.BindBuffer | guest/opengl/buffer.cpp:175-218 | exactly when it fails; a first bind makes an empty object with a new serial |
| BufferMirror.Buffers.DeleteBuffers | guest/opengl/buffer.cpp:219-291 | the listed names go, on the host too, in the fewest records, each existing name once; exactly the bindings of deleted objects revert, and what the vertex arrays latched of them |
| BufferMirror.Buffers.Pointer | guest/opengl/arrays.cpp:113-117 | the array latches the object ARRAY_BUFFER binds |
| BufferMirror.Buffers.BufferData | guest/opengl/buffer.cpp:295-336 | new contents or, without memory, an empty store, here and on the host alike; unmapped; sent in one record exactly when they fit one, else after zeroed storage |
| BufferMirror.Buffers.BufferSubData | guest/opengl/buffer.cpp:337-361 | the range is stored here and there, or exactly the error and nothing |
| BufferMirror.Buffers.GetBufferSubData | guest/opengl/buffer.cpp:362-383 | the copy's bytes, which are the host's |
| BufferMirror.Buffers.MapBuffer | guest/opengl/buffer.cpp:384-404 | maps an unmapped object only |
| BufferMirror.Buffers.UnmapBuffer | guest/opengl/buffer.cpp:405-425 | after a write mapping the host has the copy again; after a read mapping nothing is sent |
| BufferMirror.StoredMirrors | guest/opengl/buffer.cpp:337-425 | one store on both sides keeps them equal; a refused store stays empty |
| BufferMirror.NewStoreMirrors | guest/opengl/buffer.cpp:315-340 | inline, zero-defined and slab-filled storage all end equal to the copy |
| BufferMirror.CopyIsHostIff | guest/include/gl.h:136-150 | an object not mapped for writing equals the host's exactly when its storage was admitted or is empty |
| BufferMirror.Buffers.Run | guest/opengl/buffer.cpp:147-425 | over any run of calls, memory and host answers, call by call exactly what changes; every copy is the host's store as above, and byte for byte when the host refuses no storage; the host has no other objects; no binding or array resolves to another object before the wrap |
| SettledTable.PairRemoved | guest/opengl/occlusion.cpp:75-85 | swap-removal removes exactly one name and keeps names distinct |
| SettledTable.PairReplaced | guest/opengl/occlusion.cpp:87-103 | storing over a slot replaces that slot's name only |
| SettledTable.Settled.Find | guest/opengl/occlusion.cpp:64-74 | finds exactly the kept names with their values |
| SettledTable.Settled.Forget | guest/opengl/occlusion.cpp:75-86 | forgets exactly the name |
| SettledTable.Settled.Keep | guest/opengl/occlusion.cpp:87-103 | keeps the value; only a full table loses a name, the one in turn |
| SettledCache.Queries.QueryObjectValue | guest/opengl/occlusion.cpp:220-248 | local or asked, the value is the host's at that point; it asks exactly when the result is not kept, and keeps an available one |
| SettledCache.Queries.KeepReports | guest/opengl/occlusion.cpp:236-237 | every reported pair is kept coherently: all of them while there is room, forgetting nothing, and always the last |
| SettledCache.Queries.BeginQuery | guest/opengl/occlusion.cpp:181-191 | drops the name before the host can start it again |
| SettledCache.Queries.DeleteNames | guest/opengl/occlusion.cpp:129-158 | drops exactly the names before their batches; the nonzero ones go out once each, in order, in records as full as one can be, and the host deletes exactly those |
| SettledCache.Queries.SetFence | guest/opengl/occlusion.cpp:271-281 | drops the fence before the host can reset it |
| SettledCache.Queries.CallList | guest/opengl/frontend.cpp:1656-1663 | nothing is kept across a list that executed, whatever it did on the host |
| SettledCache.Queries.TestFence | guest/opengl/occlusion.cpp:296-302 | the host's answer, TRUE also for what is no fence |
| SettledCache.Queries.FinishFence | guest/opengl/occlusion.cpp:303-308 | returns only with the fence signalled |
| SettledCache.Queries.GetFence | guest/opengl/occlusion.cpp:309-324 | the host's status or condition |
| SettledCache.QueryLife | guest/include/gl.h:290-327 | one query's whole life on the host, event by event: when it exists, runs, is pending, has a result |
| SettledCache.FenceLife | guest/include/gl.h:290-327 | one fence's life: it exists from its set to its deletion, only the host signals it, setting it again unsignals it |
| SettledCache.ResultHasOrigin | guest/include/gl.h:290-327 | every result that the host answers is of the name's last begin: begun, ended and completed in that order, with nothing in between that retires it |
| SettledCache.Queries.Run | guest/opengl/occlusion.cpp:64-324 | over any run of calls, host steps and answers, every reply, from the cache or not, is what the host alone would say at that point |
| CompressedBands.FrameBlocks | guest/opengl/compressed.cpp:34-37 | a record's size in blocks is its region's, also at a partial edge, so its imageSize is CompressedImageBytes of its own rectangle |
| CompressedBands.BandRecord | guest/opengl/compressed.cpp:68-81 | one record: whole blocks, within the capacity, carrying exactly its region's bytes |
| CompressedBands.OneMoreRegion | guest/opengl/compressed.cpp:73-84 | chunks of a row never overlap and leave no gap |
| CompressedBands.Bands | guest/opengl/compressed.cpp:55-88 | for every size, block and capacity >= block the loops end and the records tile the image: each 4x4 block in exactly one record, with its own bytes, and each record as large as fits; a refused record ends the transfer with exactly the blocks before it |
| GlideSetup.FedIsAssembled | guest/glide/glide3-core.h:272-289 | from any setup state the emitted triangles are the strip or fan assembly of the kept and new vertices, and the registers hold its last vertices and parity |
| GlideSetup.TriangleIsStrip | guest/glide/glide3-core.h:290-298 | a separate triangle leaves the unit as a strip of it does |
| GlideSetup.ContinuationComposes | guest/glide/glide3-core.h:377-394 | a strip or fan and its continuation are one draw of the concatenated vertices: triangles, winding and final registers |
| GlideSetup.TriangleThenContinue | guest/glide/glide3-core.h:369-394 | a triangle then a strip continuation is the strip that starts with it |
| GlideSetup.DrawIsAssembly | guest/glide/glide3-core.h:377-394 | strips, fans and polygons are the closed-form assembly of the vertices before a null pointer |
| GlideSetup.SeparateIs | guest/glide/glide3-core.h:349-376 | which points, lines and separate triangles a draw emits, and with which vertices |
| GlideSetup.ContinueAfterPointsIff | guest/glide/glide3-core.h:350-356 | exactly when a strip continuation after points or lines is a strip of its own |
| GlideSetup.Setup.Vertex | guest/glide/glide3-core.h:272-289 | one register step and its triangle |
| GlideSetup.Setup.Draw | guest/glide/glide3-core.h:338-395 | for every mode what is emitted, what the unit holds and when it fails; primitives before a null pointer are kept |
| TraceRecorder.StepKeeps | src/perf.rs:168-197 | every atomic step of producers, collector, start and stop keeps the invariant |
| TraceRecorder.CaptureIsExact | src/perf.rs:228-300 | over any interleaving the capture that stop returns is exactly the first MAX_SAMPLES events of the session since its start, up to its end, and dropped counts every other one |
| TraceRecorder.CaptureHolds | src/perf.rs:240-299 | the capture is, in order and each once, exactly the pushed events in the window among the first MAX_SAMPLES since the start; the count of the others is exact |
| TraceRecorder.PushedIsCaptured | src/perf.rs:282-299 | an event of the window is in the capture, or the bound was reached and it is counted |
| TraceRecorder.CapturedWasPushed | src/perf.rs:236-262 | nothing but this session's events from inside the window |
| TraceRecorder.NoneCounted | src/perf.rs:263-268 | when PRODUCERS reads zero no producer can still push |
| TraceRecorder.NothingAfterTheLastLook | src/perf.rs:263-268 | after the collector's last look no producer step reaches the session's queue or counts |

## Left out

- QueueProtocol: a publish after the depth wait has met a reset happens with the session inactive and is outside the accounting; enabling a session is its initial state; reaping is one step of the driver (its lock is held).
- Weak memory: in the queue a store ordered by a fence becomes visible at that fence and nothing weaker is modelled; the recorder's atomics are sequentially consistent.
- DeferredRelease.Frontend.Run: contexts are values in a table by Id, not linked objects; one issuing thread; swapping buffers and wglShareLists are not modelled, and presenting the front buffer is only its success; a query that is refused without failing its context counts as accepted: the driver had it in its place.
- DeferredRelease.Frontend.MakeCurrent: the window binding (Bind, the display driver's retirement of it) is one parameter.
- ClientDraw.Draw: component conversion is an uninterpreted function on bytes; attribute masks are sets of slots; a client array is a base, a stride and a memory function.
- RangedDraw.Ranged: the buffer draw with buffer references and the BGRA descriptor of buffer.cpp draws are not modelled, only its client-array form.
- BufferMirror.Buffers.Run: one record stream whose records reach the host in order; a context that fails stops its stream; usage hints, the usage and access enum checks and the parameter queries are left out.
- TextureNames.TextureTable.GenTextures: a failed allocation of the table, negative counts and null arrays, which are one-branch errors; the host's names do not change during the call.
- SettledCache.Queries.Run: Gen and Is queries, glGetQueryiv and clamping to INT_MAX; the host's "oldest first" report order is not needed; an answer that breaks the host's rules is no event.
- CompressedBands.Bands: 32-bit sizes are bounded by the callers, so the products are unbounded here; the readback chunks of CompressedRead are left out as an easy loop.
- GlideSetup: vertex conversion, the address arithmetic of contiguous sources, and the `.3df` loader and texture size queries.
- RequestRetry.Submit: the request's own entry in the ring, and the validation of its commands; a synchronous entry tells the fault table nothing.
- FaultTable: no claim that records are reported in order of age, since freed slots are reused.
- GL enum validation, capability gates, extension strings, framebuffer completeness, display timing, cursor and blit policy, diagnostics: one-branch facts or input and output.
