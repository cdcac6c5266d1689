# Proofs about a USB-MIDI synthesizer and its support package

The program is a synthesizer on a Nios II processor.  It drives a MAX3421E USB host
controller, enumerates a USB-MIDI keyboard, receives event packets and plays notes on a
few voices.  Underneath lies the hardware abstraction layer of the board support package:
alarms, time of day, file descriptors, a logging printf.  This project models the parts of
both that are hard to get right, and proves what they are for.

Verify everything with `dafny verify dfyconfig.toml`.

The files follow the program's components:

- `MachineInts.dfy`, `Clock.dfy`: 8, 16 and 32-bit integers with their wrap-around, and
  deadlines on a 32-bit millisecond clock.
- `Wrappers.dfy`, `UsbCodes.dfy`: optional values, and the result codes and limits of the
  transfer layer.
- `ParseTools.dfy`, `PtpList.dfy`, `PtpEncoding.dfy`: the resumable building blocks of the
  parsers, the parser for counted lists, and such lists as they are written.
- `DescriptorFraming.dfy`, `Reader.dfy`: an automaton that takes one byte at a time, and the
  fall-through machine that refines it.  The automaton never sees where a buffer ends, so
  the split law is a theorem about it, and every parser inherits the law by refinement.
  The two parser classes of the original repeat the same switch word for word; it is
  written once here and used by both.
- `MidiDescriptors.dfy`, `MidiEndpoints.dfy`, `MidiParser.dfy`, `ConfigParser.dfy`,
  `ConfigExample.dfy`: what the two parsers find, defined on lists of whole descriptors
  (USB 2.0 sections 9.6.3, 9.6.5, 9.6.6) and proved to be what the classes compute.
- `AddressPool.dfy`, `AddressCounter.dfy`: the allocator whose addresses encode a tree of
  hubs in bit fields.
- `DispatchPkt.dfy`, `InTransfer.dfy`, `OutTransfer.dfy`, `OutRetries.dfy`,
  `ControlTransfer.dfy`, `UsbTask.dfy`, `UsbProgress.dfy`: transfers, requests and
  enumeration.  The device and the controller are an environment: a script of answers, or
  arbitrary choices, together with clock readings.
- `MidiMessages.dfy`, `SysEx.dfy`, `SysExOverUsb.dfy`, `RecvData.dfy`: USB-MIDI event packets
  in both directions (section 4 of the USB Device Class Definition for MIDI Devices 1.0), and
  `MidiDriver.dfy`, the class that sends and receives them.
- `AlarmTimers.dfy`, `AlarmList.dfy`, `AlarmRuns.dfy`, `AlarmStops.dfy`: the time stored in
  one alarm against the unbounded timeline, the linked list that is walked while alarms take
  themselves off it, many ticks, and callbacks that take others off.
- `TimeOfDay.dfy`, `FdTable.dfy`, `FdRuns.dfy`, `LogPrintf.dfy`, `Voices.dfy`: the smaller
  components.

Code that changes state is written as classes and loops, and each method is tied to a
function on values; the theorems are about these functions, over all inputs and whole
runs, and say what comes out in terms of the bytes, the answers and the clock readings that
went in.  A type ending in a question mark stands for a pointer that may be null, a pointer
into an array is the array and an offset.

Where the program does not do what it is for, the exact condition under which it does is
proved, mostly with a concrete input that shows the failure beside it:

- `SafeExactlyWhenWellFormed`: the 16-byte buffer of the descriptor parsers.
- `BothSlotsAreWritten`, `TwoOfOneKind`: two endpoints found, but both of one direction.
- `PrescribedIsEnough`, `FullPacketsCanFail`: a data stage that asks for one packet too many.
- `StartIsExact`: a request for 2^32 - 1 ticks.
- `PassEnds`, `StoppingTheNext`: a callback that stops the alarm behind its own.
- `SuccessIsDelivery`, `DeliveredInTime`, `SuccessCanLoseAPacket`: OutTransfer returns 0
  after it gave up a packet at the deadline.  `MessageArrives` carries this to SysEx messages.
- `FetchIsExact`, `QueueExactly`, `FifteenPacketsRepeatOne`, `EmptyTransferRepeats`: the
  missing terminator of RecvData.
- `DetachReleases`: a device that goes with an SE1 sample leaves its drivers unreleased.
- `SendLongMessage`: messages that are dropped although the call reports success.
- `SetThenGet`, `SetLateIsWrong`: settimeofday multiplies in 32 bits.
- `LockIsRight`, `LockBesideAnOpenDescriptor`: alt_fd_lock leaves out the descriptor at
  alt_max_fd.  `OneLockPerDevice` shows that two locks on one device never result.
- `BagExactly`, `RegistersTellExactly`, `NoteZeroSticks`: note 0 on the synthesizer.
- `CloseUnlocksExactly`, `ClosedStreamStaysLocked`: a closed standard stream keeps its lock.
- `FreeMeans`, `ForeignRootAddress`: freeing address 0x41 when it is not in use.

Three comments in the original are contradicted by its code, which the model follows: the
result 0xff that dispatchPkt documents for a timeout is overwritten before it can be
returned; alt_fd_lock does not refuse in every case in which its comment says so; and
close does not release the lock of a standard stream, although the comment on alt_fd_lock
names close as a way to do so.

## Model

| member | source | states |
|---|---|---|
| `ParseTools.MultiByteValueParser.Initialize` | SOC/software/space_jam/include/parsetools.h:54-57 | the parser points at the buffer and counts down from its value size |
| `ParseTools.MultiByteValueParser.Parse` | SOC/software/space_jam/include/parsetools.cpp:26-39 | takes min(missing, available) bytes to the places right behind those it has, answers true exactly when the value is complete and is then ready for the next one; with a null buffer it takes nothing |
| `ParseTools.ByteSkipper.Skip` | SOC/software/space_jam/include/parsetools.h:77-89 | skips min(pending, available) bytes over any number of calls, and is done exactly when none is pending |
| `PtpList.ElementIs` | SOC/software/space_jam/include/parsetools.cpp:63-69 | element k of a list is the k-th slice of the element size behind the length field, and is reported with index k |
| `PtpList.PTPListParser.Parse` | SOC/software/space_jam/include/parsetools.cpp:41-74 | resumes anywhere, in either mode and with or without a callback: the bytes taken so far are the bytes of all calls in order; true exactly when the list is complete, with its elements in order; the callback of a call, if there is one, gets exactly the elements that the call completes; otherwise the buffer is used up and the list is not complete |
| `PtpList.PTPListParser.BeginList` | SOC/software/space_jam/include/parsetools.cpp:43-46 | an array-mode list begins with no byte taken and the parser set up for its length field |
| `PtpList.PTPListParser.BeginElements` | SOC/software/space_jam/include/parsetools.cpp:57-60 | the elements begin where the length field ends, and at once in range mode |
| `PtpList.PTPListParser.ReadOn` | SOC/software/space_jam/include/parsetools.cpp:48-73 | stages 1 to 3, entered at any of them |
| `PtpList.PTPListParser.TakeLength` | SOC/software/space_jam/include/parsetools.cpp:48-55 | the length field may arrive over several calls; afterwards it is known and no element is counted |
| `PtpList.PTPListParser.TakeElement` | SOC/software/space_jam/include/parsetools.cpp:63-69 | one element over one or several calls: exactly one callback once it is complete, none before, none at all without a callback |
| `PtpList.PTPListParser.TakeElements` | SOC/software/space_jam/include/parsetools.cpp:62-71 | the whole loop of stage 3, and that an interrupted list is really incomplete |
| `PtpList.PTPListParser.ParsePieces` | SOC/software/space_jam/include/parsetools.cpp:41-74 | for every way of cutting the stream: the callbacks are those of the list that the stream begins with, and the list is complete exactly when the stream holds all its bytes |
| `PtpList.PTPListParser.constructor` | SOC/software/space_jam/include/parsetools.h:132-147 | array mode starts before the length field, range mode with a length of three and no length field; the buffer holds both fields |
| `PtpEncoding.LengthBytes` | SOC/software/space_jam/include/parsetools.cpp:51-55 | the length byte by byte, the lowest first: four bytes, or two when the field is shorter |
| `PtpEncoding.EncodedListIsRead` | SOC/software/space_jam/include/parsetools.cpp:41-74 | the round trip: a length field of two or four bytes and so many elements behind it are read as just these elements, each with its number |
| `PtpEncoding.RangeIsRead` | SOC/software/space_jam/include/parsetools.h:132-147 | in range mode: three elements and no length field |
| `DescriptorFraming.BodySizeWraps` | SOC/software/space_jam/include/confdescparser.h:135-136 | the size of a body is the length byte minus 2 in 8 bits when it is kept, in 16 bits when it is skipped |
| `DescriptorFraming.RunAppend` | SOC/software/space_jam/include/confdescparser.h:102-184 | running the byte automaton over a and then b is running it over a followed by b |
| `DescriptorFraming.RunHeader` | SOC/software/space_jam/include/confdescparser.h:107-137 | one or two header bytes go to the front of varBuffer; the second one opens the descriptor |
| `DescriptorFraming.RunBody` | SOC/software/space_jam/include/confdescparser.h:138-181 | body bytes are copied behind the header or skipped, and the descriptor closes exactly on its last byte |
| `DescriptorFraming.FeedAppend` | SOC/software/space_jam/include/confdescparser.h:90-98 | the split law: feeding two pieces in turn leaves the same parser state and has the same effects as feeding their concatenation |
| `DescriptorFraming.PiecesAreOneStream` | SOC/software/space_jam/include/confdescparser.h:90-98 | the split law for any number of pieces |
| `DescriptorFraming.RunDescriptors` | SOC/software/space_jam/include/confdescparser.h:102-184 | a list of well-formed descriptors is framed as that list: one opening and one closing event for each, in order, with the bytes of each in varBuffer |
| `DescriptorFraming.FeedDescriptors` | SOC/software/space_jam/include/confdescparser.h:102-184 | refinement of the one-shot parser: a list of descriptors, cut anywhere, has exactly the effect of its events in order |
| `DescriptorFraming.LongDescriptorOverruns` | SOC/software/space_jam/include/usbh_midi.cpp:610-649 | a kept descriptor that is framed as longer than 16 bytes, as one with a length byte of 0 or 1 is too, makes the parser write past varBuffer |
| `DescriptorFraming.SeventeenBytesOverrun` | SOC/software/space_jam/include/usbh_midi.cpp:610-649 | an interface descriptor of 16 bytes fits, one of 17 does not |
| `DescriptorFraming.SafeExactlyWhenWellFormed` | SOC/software/space_jam/include/usbh_midi.cpp:610-649 | varBuffer suffices for a list of descriptors, whatever their length bytes, if and only if none that is kept is framed as longer than 16 bytes |
| `Reader.DescriptorReader.constructor` | SOC/software/space_jam/include/confdescparser.h:78-88 | a new machine waits for the first byte of a header |
| `Reader.DescriptorReader.TakeHeader` | SOC/software/space_jam/include/confdescparser.h:106-137 | states 0 to 3, which fall through: resumable after either header byte, and agreeing with the byte automaton |
| `Reader.DescriptorReader.TakeRest` | SOC/software/space_jam/include/confdescparser.h:138-181 | state 4: keeps or skips as many body bytes as there are, and is done exactly when none is missing |
| `Reader.DescriptorReader.ParseDescriptor` | SOC/software/space_jam/include/confdescparser.h:102-184 | the fall-through switch refines the byte automaton, never indexes outside its buffers on safe input, makes progress, and stops early only when the input is used up |
| `MidiDescriptors.TwoEndpointsAreKept` | SOC/software/space_jam/include/usbh_midi.cpp:643-654 | once two endpoints are found no later descriptor changes the count or the endpoint table |
| `MidiDescriptors.EventsCount` | SOC/software/space_jam/include/usbh_midi.cpp:600-655 | the two counting fields after a list of descriptors are those of a counter driven by whole descriptors |
| `MidiDescriptors.CountMeaning` | SOC/software/space_jam/include/usbh_midi.cpp:631-654 | the count is at most 2; it is 2 if and only if some matching interface has two accepted endpoints; otherwise it is the count of the last matching interface |
| `MidiDescriptors.EndpointCountIsRight` | SOC/software/space_jam/include/usbh_midi.cpp:566-665 | the same for the bytes of a configuration cut into buffers in any way |
| `MidiDescriptors.TableStaysOk` | SOC/software/space_jam/include/usbh_midi.cpp:688-697 | no descriptor makes a packet size in the endpoint table larger than 64 |
| `MidiDescriptors.ParsedTableIsOk` | SOC/software/space_jam/include/usbh_midi.cpp:566-698 | the same for any bytes in any number of buffers, malformed ones too |
| `MidiDescriptors.SlotMeans` | SOC/software/space_jam/include/usbh_midi.cpp:647-655 | a slot of the endpoint table ends up with the last endpoint taken for it, and stays as it was if there is none; taken are accepted endpoints of matching interfaces, until some interface has had two |
| `MidiDescriptors.TakenMeans` | SOC/software/space_jam/include/usbh_midi.cpp:641-655 | the flag and the counter of the code decide exactly that |
| `MidiDescriptors.EventsFillTable` | SOC/software/space_jam/include/usbh_midi.cpp:600-655 | while a list of descriptors is parsed the table holds what is taken so far, and confValue is that of the last configuration descriptor |
| `MidiDescriptors.EndpointTableIsRight` | SOC/software/space_jam/include/usbh_midi.cpp:566-698 | addresses, packet sizes and confValue after the bytes of a configuration cut into buffers in any way are those read off the list of its descriptors |
| `MidiDescriptors.BothSlotsAreWritten` | SOC/software/space_jam/include/usbh_midi.cpp:641-698 | both data entries of the table come from the descriptors, and not from before, if and only if an endpoint of either direction is taken |
| `MidiDescriptors.TwoOfOneKind` | SOC/software/space_jam/include/usbh_midi.cpp:641-698 | a matching interface with two bulk IN endpoints is counted as 2 although the entry of the OUT endpoint was never written |
| `MidiEndpoints.TransferTypes` | SOC/software/space_jam/include/usbh_midi.cpp:668-686 | in numbers of USB 2.0: the mask 3 accepts bulk endpoints, the mask 2 bulk and interrupt endpoints |
| `MidiEndpoints.InterfaceBytes` | SOC/software/space_jam/include/usbh_midi.cpp:631-641 | a MIDI streaming interface is one of class 1 and subclass 3 |
| `MidiEndpoints.EndpointsByDirection` | SOC/software/space_jam/include/usbh_midi.cpp:566-698 | on the bytes, for any cut: entry 1 has the number and the packet size, up to 64, of the last taken endpoint with bit 7 of its address set, entry 2 those of the last one without, and an entry for which none is taken is as before |
| `MidiEndpoints.KeyboardIsFound` | SOC/software/space_jam/include/usbh_midi.cpp:566-698 | for an ordinary keyboard, whose configuration also has other interfaces, class descriptors and an interrupt endpoint: entry 1 is endpoint 1 with 64 bytes, entry 2 is endpoint 2 with 32, the configuration value is 1, the count 2 |
| `MidiParser.EndpointTable.EndpointXtract` | SOC/software/space_jam/include/usbh_midi.cpp:668-698 | accepts exactly the bulk endpoints under the mask; the accepted one is stored with its packet size limited to 64, in the entry of its direction |
| `MidiParser.MidiDescParser.constructor` | SOC/software/space_jam/include/usbh_midi.cpp:555-565 | no endpoint counted and no byte read; isGoodInterface stays arbitrary |
| `MidiParser.MidiDescParser.Complete` | SOC/software/space_jam/include/usbh_midi.cpp:614-655 | what a complete descriptor does to the fields and the endpoint table |
| `MidiParser.MidiDescParser.ParseDescriptor` | SOC/software/space_jam/include/usbh_midi.cpp:575-665 | one call has the effect that the automaton and its events have on the bytes that the call took |
| `MidiParser.MidiDescParser.Parse` | SOC/software/space_jam/include/usbh_midi.cpp:566-573 | one buffer is consumed to its last byte, with the effect of feeding it to the automaton |
| `ConfigParser.OneMoreDescriptor` | SOC/software/space_jam/include/confdescparser.h:125-181 | after one more descriptor the fields again say the configuration value, the current interface and all callbacks so far |
| `ConfigParser.EventsMakeCalls` | SOC/software/space_jam/include/confdescparser.h:138-170 | the events of a list of descriptors make the callbacks that are read off the list |
| `ConfigParser.CallsAreRight` | SOC/software/space_jam/include/confdescparser.h:90-184 | for any cut into buffers: one callback for each endpoint whose interface matches the class filter (mask and OR mode), in order, with the fields of that interface and the current configuration value, and no other |
| `ConfigExample.MouseIsHeardOf` | SOC/software/space_jam/include/confdescparser.h:90-184 | for a device with a keyboard and a mouse interface and a filter for the mouse: one callback, with the values of the configuration and of the mouse interface and the bytes of its endpoint |
| `ConfigExample.DeskCallsWithOr` | SOC/software/space_jam/include/confdescparser.h:148-158 | with SetOR both interfaces of that device match, whose protocols are not zero; without the protocol bit in the mask none does |
| `ConfigParser.ConfigDescParser.constructor` | SOC/software/space_jam/include/confdescparser.h:78-88 | starts between descriptors with UseOr off; the other fields stay arbitrary |
| `ConfigParser.ConfigDescParser.SetOR` | SOC/software/space_jam/include/confdescparser.h:71-73 | switches the protocol test to OR mode |
| `ConfigParser.ConfigDescParser.Complete` | SOC/software/space_jam/include/confdescparser.h:138-170 | what a complete descriptor does: configuration value, interface filter, endpoint callback if there is an extractor |
| `ConfigParser.ConfigDescParser.ParseDescriptor` | SOC/software/space_jam/include/confdescparser.h:102-184 | one call has the effect of the events on the bytes that it took |
| `ConfigParser.ConfigDescParser.Parse` | SOC/software/space_jam/include/confdescparser.h:90-98 | one buffer is consumed to its last byte, with the effect of feeding it to the automaton |
| `AddressPool.SubtreeIsReachable` | SOC/software/space_jam/include/address.h:142-158 | the subtree of an entry is exactly what is reachable from it through the parent fields in any number of steps |
| `AddressPool.NothingBelow` | SOC/software/space_jam/include/address.h:149-151 | a hub without children left has nothing left below it |
| `AddressPool.RankDrops` | SOC/software/space_jam/include/address.h:149-151 | a child hub has a higher number than its hub, which bounds the recursion |
| `AddressPool.FreeLeaf` | SOC/software/space_jam/include/address.h:153-157 | freeing an entry on which nothing hangs keeps the tree, and hubCounter stays an upper bound of the live hub numbers |
| `AddressPool.CounterMovedTwice` | SOC/software/space_jam/include/address.h:153-155 | hubCounter only gives up numbers of hubs that were freed |
| `AddressPool.NewAddressFields` | SOC/software/space_jam/include/address.h:228-258 | the bit fields of a new address: hub flag, number or port, and parent number |
| `AddressPool.NewAddressIsNew` | SOC/software/space_jam/include/address.h:228-258 | a new address is nonzero and not in use, given a port that is not in use |
| `AddressPool.AllocKeepsPool` | SOC/software/space_jam/include/address.h:210-258 | allocation keeps the pool invariant: live hub numbers distinct, within 1..hubCounter and hubCounter at most 7, each child hub above its hub, live addresses distinct, every parent live |
| `AddressPool.FreeKeepsPool` | SOC/software/space_jam/include/address.h:262-270 | freeing a subtree keeps the pool invariant |
| `AddressPool.FreedKeepsTree` | SOC/software/space_jam/include/address.h:142-158 | freeing a subtree keeps hub numbers distinct, counted and above those of their hubs |
| `AddressPool.ClearedIsSame` | SOC/software/space_jam/include/address.h:162-167 | clearing the pool changes nothing if and only if nothing is in use |
| `AddressPool.FreeMeans` | SOC/software/space_jam/include/address.h:262-270 | a live address takes its subtree with it; for a nonzero address that is not in use the pool stays as it was if and only if the address is not 0x41 or nothing is in use |
| `AddressCounter.NumberIsGivenBack` | SOC/software/space_jam/include/address.h:142-158 | freeing a hub on which nothing hangs lowers the counter if and only if the hub has the highest number handed out |
| `AddressPool.NextKeepsPool` | SOC/software/space_jam/include/address.h:210-270 | each allowed allocation and each free, on pools as values, keeps the pool invariant |
| `AddressPool.RunsKeepPool` | SOC/software/space_jam/include/address.h:171-270 | in every run of allowed allocations and arbitrary frees from the empty pool: live hub numbers distinct, within 1..hubCounter and above those of their hubs, live addresses distinct, every parent live |
| `AddressPool.RootSubtreeIsAll` | SOC/software/space_jam/include/address.h:262-267 | with a hub at the root every live entry is in its subtree, so that clearing the pool frees exactly that subtree |
| `AddressPool.AddressPoolImpl.constructor` | SOC/software/space_jam/include/address.h:171-184 | an empty pool of any size satisfies the invariant |
| `AddressPool.AddressPoolImpl.InitEntry` | SOC/software/space_jam/include/address.h:113-118 | one entry is reset and no other |
| `AddressPool.AddressPoolImpl.FindAddressIndex` | SOC/software/space_jam/include/address.h:122-128 | the first entry from 1 on with the address; 0 exactly when there is none |
| `AddressPool.AddressPoolImpl.FindChildIndex` | SOC/software/space_jam/include/address.h:132-138 | the first entry from the given one on whose parent is the hub; 0 exactly when there is none |
| `AddressPool.AddressPoolImpl.FreeAddressByIndex` | SOC/software/space_jam/include/address.h:142-158 | terminates and frees exactly the entries reachable from the given one, leaving every other entry as it was |
| `AddressPool.AddressPoolImpl.InitAllAddresses` | SOC/software/space_jam/include/address.h:162-167 | all entries but entry 0 are reset and hubCounter is 0 |
| `AddressPool.AddressPoolImpl.GetUsbDevicePtr` | SOC/software/space_jam/include/address.h:188-195 | the entry of a live address, entry 0 for address 0, null exactly when no entry has the address |
| `AddressPool.AddressPoolImpl.AllocAddress` | SOC/software/space_jam/include/address.h:210-258 | when it refuses nothing changes; otherwise the first free entry gets the new address; the invariant is kept for callers that attach to live hubs and use no port twice |
| `AddressPool.AddressPoolImpl.FreeAddress` | SOC/software/space_jam/include/address.h:262-270 | a live address takes exactly its subtree with it; 0x41 clears all entries but entry 0; an address that is not in use changes nothing, if and only if it is not 0x41 or the pool is empty |
| `AddressPool.ForeignRootAddress` | SOC/software/space_jam/include/address.h:262-267 | 0x41 clears the pool even when it was never handed out: a device with address 1 is lost |
| `Clock.DeadlineIsExact` | SOC/software/space_jam/include/Usb.cpp:402-415 | for every start time of the 32-bit clock the wrapped signed comparison means "less than n ms since the start", as long as less than 2^31 ms have gone by; and exactly what it means beyond that |
| `DispatchPkt.NakLimitFits` | SOC/software/space_jam/include/Usb.cpp:94-95 | the NAK limit fits 15 bits, and there is no limit exactly for NAK power 0 |
| `DispatchPkt.NakLimitDoubles` | SOC/software/space_jam/include/Usb.cpp:94-95 | the limit is 0, 1, 3, 7 and so on up to 15 bits |
| `DispatchPkt.ThirdTimeoutIsLast` | SOC/software/space_jam/include/Usb.cpp:441-445 | the third timeout of a call is the last, and its deadline is after 5000 ms |
| `DispatchPkt.LaunchesAreBounded` | SOC/software/space_jam/include/Usb.cpp:401-452 | with a NAK limit one call launches at most limit + 2 transfers, whatever the device answers |
| `DispatchPkt.RetryAgain` | SOC/software/space_jam/include/Usb.cpp:435-448 | after each answer either the retries go on within both limits or it was the last one, never both |
| `DispatchPkt.Judge` | SOC/software/space_jam/include/Usb.cpp:435-448 | the switch on the result code stops exactly when the answer is not NAK or timeout, or one of the two limits is reached |
| `DispatchPkt.WaitEndIsFirst` | SOC/software/space_jam/include/Usb.cpp:415-428 | no reading before the end of a wait is past the deadline, and no poll before it shows the transfer done |
| `DispatchPkt.DispatchedUniquely` | SOC/software/space_jam/include/Usb.cpp:408-450 | the clock, the polls and the answers decide what a call launches: each launch begins before the deadline and right after the wait for the one before, answers that are not retried end the call, and it ends for no other reason but the deadline |
| `DispatchPkt.FirstLastIsResult` | SOC/software/space_jam/include/Usb.cpp:408-451 | a call returns the first answer that is not retried, if its launch began in time; otherwise the deadline ended it before |
| `DispatchPkt.NakIsRetried` | SOC/software/space_jam/include/Usb.cpp:408-450 | a NAK after 1 ms and then an acknowledgement: two launches, result 0 |
| `DispatchPkt.HostController.LaunchNext` | SOC/software/space_jam/include/Usb.cpp:408-448 | one turn of the loop: the next launch, begun in time, and whether it was the last |
| `DispatchPkt.HostController.LaunchAll` | SOC/software/space_jam/include/Usb.cpp:408-451 | the loop of launches up to the last one |
| `DispatchPkt.HostController.Reading` | SOC/software/space_jam/include/Usb.cpp:402-415 | the deadline test on any clock reading of a call |
| `DispatchPkt.HostController.Wait` | SOC/software/space_jam/include/Usb.cpp:415-428 | ends right after the first reading whose poll shows the transfer done, or else after the first one past the deadline |
| `DispatchPkt.HostController.Launch` | SOC/software/space_jam/include/Usb.cpp:412-433 | one launch, its wait, and its result code, the low four bits of HRSL |
| `DispatchPkt.HostController.Dispatch` | SOC/software/space_jam/include/Usb.cpp:401-452 | launches exactly what Dispatched says and returns the code of the last launch; code 0 without any launch when the second clock reading is past the deadline already |
| `InTransfer.ReceiveConforms` | SOC/software/space_jam/include/Usb.cpp:224-297 | for a device that sends its data in full packets and a shorter last one: what a transfer puts into the buffer is the front of the data, and once it succeeds exactly the next nbytes or all that is left, through toggle errors, if the request is a multiple of the packet size or large enough |
| `InTransfer.ReceiveEnds` | SOC/software/space_jam/include/Usb.cpp:224-297 | such a transfer succeeds if and only if the device sends as many packets as it takes before its first failure; otherwise it ends with the code of that failure, or waits for a device that sends no more |
| `InTransfer.ReceiveFits` | SOC/software/space_jam/include/Usb.cpp:224-297 | a device that never sends more than its packet size stays inside a buffer that is a multiple of it, whatever it sends |
| `InTransfer.LongPacketIsCut` | SOC/software/space_jam/include/Usb.cpp:256-281 | a packet longer than the request is cut off and ends the transfer |
| `InTransfer.MemLeft` | SOC/software/space_jam/include/Usb.cpp:264-281 | the 16-bit arithmetic on counts is exact for requests below 32768 bytes |
| `InTransfer.InPipe.InTransfer` | SOC/software/space_jam/include/Usb.cpp:224-297 | the packet loop computes Receive and writes exactly its bytes to the front of the buffer |
| `InTransfer.BytesRd` | SOC/software/space_jam/include/Usb.cpp:273-278 | n bytes of the receive FIFO go to the buffer, nothing else changes |
| `ControlTransfer.BufferIsMultiple` | SOC/software/space_jam/include/Usb.cpp:807-822 | the 64-byte buffer is a multiple of each packet size that endpoint 0 may have |
| `ControlTransfer.StageStep` | SOC/software/space_jam/include/Usb.cpp:165-191 | one turn of the data stage with a conforming device: with enough packets the parser gets the next piece of the data and the device goes on from there, and otherwise the stage ends with the code of the failure |
| `ControlTransfer.FetchAndParse` | SOC/software/space_jam/include/Usb.cpp:165-186 | one transfer, for any device: its code, its count, its bytes at the front of the buffer, and on success handed to the parser if there is one |
| `ControlTransfer.DataStage` | SOC/software/space_jam/include/Usb.cpp:159-191 | the loop over left, for any device that keeps to its packet size: which transfers are made with which offsets, the 16-bit count included, what the parser got, and how it ends |
| `ControlTransfer.DataStageEnds` | SOC/software/space_jam/include/Usb.cpp:159-191 | with a conforming device the data stage succeeds if and only if the device sends the packets that are needed before its first failure, and otherwise ends with the code of that failure |
| `ControlTransfer.DataStageBrings` | SOC/software/space_jam/include/Usb.cpp:159-191 | the parser gets consecutive pieces of the data, each with its offset; on success they are the whole data |
| `ControlTransfer.NeededForBuffer` | SOC/software/space_jam/include/Usb.cpp:163-191 | for the 64-byte buffer that is as many packets as the data has, and one more unless the data is all that was asked for and a multiple of 64 |
| `ControlTransfer.PrescribedIsEnough` | SOC/software/space_jam/include/Usb.cpp:163-191 | the packets with which a device ends a data stage according to USB 2.0 section 5.5.3 are enough if and only if the data is shorter than asked for, not a multiple of the packet size, or a multiple of 64 |
| `ControlTransfer.FullPacketsCanFail` | SOC/software/space_jam/include/Usb.cpp:163-191 | 16 bytes in two packets of 8 all arrive, a third packet is asked for, and the request fails before the parser got anything |
| `ControlTransfer.CtrlReqIn` | SOC/software/space_jam/include/Usb.cpp:126-202 | computes the request for any device that keeps to its packet size, with or without a parser |
| `ControlTransfer.RequestEnds` | SOC/software/space_jam/include/Usb.cpp:126-202 | control-IN end to end, for all codes and scripts: success exactly when SetAddress and the three stages succeed, otherwise the code of the first to fail; the parser got consecutive pieces of the data, none if the data stage was not reached, and all of it whenever the data stage succeeded |
| `ControlTransfer.CtrlReqOut` | SOC/software/space_jam/include/Usb.cpp:126-202 | control-OUT: success means that all stages succeeded, and then the data has all arrived if and only if OutTransfer met no answer other than a success after its deadline |
| `ControlTransfer.CtrlReq` | SOC/software/space_jam/include/Usb.cpp:126-202 | without a data stage, on the host controller: the code is that of the last packet launched, no status packet follows a failed setup, success means that neither was refused, and the launches are bounded by the NAK limit |
| `ControlTransfer.WholeConfiguration` | SOC/software/space_jam/include/Usb.cpp:807-822 | a parser that is fed a whole configuration stays inside its buffer, counts its endpoints rightly, and leaves the right endpoint table, by directions and bytes, and the right configuration value |
| `ControlTransfer.KeyboardIsDescribed` | SOC/software/space_jam/include/Usb.cpp:807-822 | so that for an ordinary keyboard a successful call leaves endpoint 1 with 64 bytes in entry 1, endpoint 2 with 32 bytes in entry 2, and the configuration value 1 |
| `ControlTransfer.GetHeader` | SOC/software/space_jam/include/Usb.cpp:808-815 | the first request brings the first nine bytes of the configuration, and how it ends |
| `ControlTransfer.GetConfDescr` | SOC/software/space_jam/include/Usb.cpp:807-822 | two requests: the call succeeds if and only if all steps of both do, and otherwise returns the code of the first to fail; after a success the count, the endpoint table and the configuration value are those of the device's whole list of descriptors, and after a failure the parser has seen a prefix of it |
| `OutTransfer.AttemptShape` | SOC/software/space_jam/include/Usb.cpp:334-386 | of the launches of one packet only the last can be acknowledged, and it is exactly when the packet is |
| `OutRetries.PacketEnds` | SOC/software/space_jam/include/Usb.cpp:346-386 | read off the answers alone: a packet is launched again after each answer that is in time and retryable (NAKs short of the limit, fewer than three timeouts, toggle errors), and the first other answer decides: acknowledged, given up when late, or stopped |
| `OutRetries.RetryLimits` | SOC/software/space_jam/include/Usb.cpp:352-372 | in numbers: the third timeout and the NAK that reaches the limit are not retried, toggle errors do not count, and nothing else is retried |
| `OutRetries.EndsUniquely` | SOC/software/space_jam/include/Usb.cpp:346-386 | there is only one way to end like that |
| `OutRetries.ReturnsExactly` | SOC/software/space_jam/include/Usb.cpp:330-393 | which code a call returns, for every script and every code: packet by packet the first answer that ends it, going on after a success and after a late answer, returning at once after any other |
| `OutRetries.SucceedsExactly` | SOC/software/space_jam/include/Usb.cpp:330-393 | in particular, when it returns 0 |
| `OutRetries.RetriedByteIsDelivered` | SOC/software/space_jam/include/Usb.cpp:348-386 | a byte that is answered with NAK after 1 ms and acknowledged after 2 ms is delivered, and the call returns 0 |
| `OutTransfer.GivenUpIsLate` | SOC/software/space_jam/include/Usb.cpp:348-386 | a packet is given up if and only if one of the answers that it met, other than a success, came after the deadline |
| `OutTransfer.StopAndWaitDelivers` | SOC/software/space_jam/include/Usb.cpp:330-389 | under stop and wait the acknowledged packets are a prefix of those to be sent |
| `OutTransfer.SendIsStopAndWait` | SOC/software/space_jam/include/Usb.cpp:315-394 | as long as no answer other than a success comes after the deadline, every launch carries the first packet that is not acknowledged yet, the data being cut at multiples of the packet size; a return of 0 means that all of them were acknowledged |
| `OutTransfer.SendDelivers` | SOC/software/space_jam/include/Usb.cpp:315-394 | in every run the packets are tried in order, none is acknowledged twice, and the acknowledged ones are those that were not given up |
| `OutTransfer.SuccessIsDelivery` | SOC/software/space_jam/include/Usb.cpp:348-388 | a call that returns 0 has delivered the data if and only if none of the answers it met, other than a success, came after the deadline; otherwise strictly less than the data was delivered |
| `OutTransfer.LateAnswers` | SOC/software/space_jam/include/Usb.cpp:348-388 | a call gives up no packet if and only if it meets no answer other than a success after the deadline |
| `OutTransfer.DeliveredInTime` | SOC/software/space_jam/include/Usb.cpp:325-388 | the same on the unbounded clock: delivered if and only if every answer other than a success came within five seconds of the start, whatever the 32-bit clock shows then |
| `OutTransfer.SuccessEnds` | SOC/software/space_jam/include/Usb.cpp:348-393 | a return of 0 means that every packet was acknowledged or given up, and the last one acknowledged |
| `OutTransfer.SuccessCanLoseAPacket` | SOC/software/space_jam/include/Usb.cpp:348-388 | a run, from any start time, that returns 0 with the first of two packets lost |
| `OutTransfer.OutPipe.BytesWr` | SOC/software/space_jam/include/Usb.cpp:337 | bytes go to the send FIFO at its write pointer |
| `OutTransfer.OutPipe.LaunchOut` | SOC/software/space_jam/include/Usb.cpp:338-346 | one launch sends the armed part of the FIFO |
| `OutTransfer.OutPipe.Rearm` | SOC/software/space_jam/include/Usb.cpp:374-377 | the byte count 0, the first byte and the byte count again are written for the NAK bug, and leave the same payload armed |
| `OutTransfer.OutPipe.SendPacket` | SOC/software/space_jam/include/Usb.cpp:334-386 | the launches of one packet are those of Attempt, each with the same payload |
| `OutTransfer.OutPipe.SendAll` | SOC/software/space_jam/include/Usb.cpp:330-389 | the packet loop computes Send |
| `OutTransfer.OutPipe.OutTransfer` | SOC/software/space_jam/include/Usb.cpp:315-394 | the same from a clock reading, the deadline five seconds later, with the check of the packet size, which fails without touching the bus |
| `UsbTask.UsbHost.PollDrivers` | SOC/software/space_jam/include/Usb.cpp:490-492 | each registered driver is polled once, in order |
| `UsbTask.UsbHost.ReleaseDrivers` | SOC/software/space_jam/include/Usb.cpp:498-500 | each registered driver is released once, in order |
| `UsbTask.UsbHost.Task` | SOC/software/space_jam/include/Usb.cpp:455-559 | one call computes Step and does the actions of Actions |
| `UsbTask.AttachedRun` | SOC/software/space_jam/include/Usb.cpp:468-488 | while the state is an attached one every sample since the attach showed a device |
| `UsbTask.ResetRun` | SOC/software/space_jam/include/Usb.cpp:508-515 | past the bus reset: it was issued after the settle delay |
| `UsbTask.FinishedRun` | SOC/software/space_jam/include/Usb.cpp:516-523 | past the wait for the reset: it was seen finished in a later call |
| `UsbTask.FrameRun` | SOC/software/space_jam/include/Usb.cpp:524-534 | past the wait for a frame: a frame interrupt was seen after that |
| `UsbTask.WaitedRun` | SOC/software/space_jam/include/Usb.cpp:535-537 | when configuring: another 20 ms went by since the frame |
| `UsbTask.ConfiguredRun` | SOC/software/space_jam/include/Usb.cpp:538-552 | when running: Configuring returned 0, called with the speed of the current sample |
| `UsbTask.RunningIsSafe` | SOC/software/space_jam/include/Usb.cpp:463-559 | in every run, RUNNING implies all of that since the latest attach, with no SE0 or SE1 in between |
| `UsbTask.RunningLasts` | SOC/software/space_jam/include/Usb.cpp:468-558 | in every run from RUNNING: it is never left if and only if no sample shows SE0 or SE1 |
| `UsbTask.ConfiguringDecides` | SOC/software/space_jam/include/Usb.cpp:538-558 | in every run with the device there: the first result of Configuring decides, and RUNNING or ERROR with that result then stays |
| `UsbProgress.DeviceGetsOn` | SOC/software/space_jam/include/Usb.cpp:463-559 | from the call that finds a device attached, as long as it stays: the state, the deadline and the error after any number of calls are those that the first calls past the settle time, with the bus reset done, with a frame, 20 ms later, and with a result of Configuring decide, each later than the one before |
| `UsbProgress.DeviceIsServed` | SOC/software/space_jam/include/Usb.cpp:494-552 | the bus reset is issued, the frames are started and Configuring is called, with the speed of the sample, in exactly those calls |
| `UsbProgress.ConfiguringIsReached` | SOC/software/space_jam/include/Usb.cpp:508-538 | in real time: a device that stays is configured if and only if there are four such calls in this order |
| `UsbProgress.PassedMeans` | SOC/software/space_jam/include/Usb.cpp:508-537 | what the wrapped comparison of a call with its deadline means in real time |
| `UsbTask.DriversArePolled` | SOC/software/space_jam/include/Usb.cpp:490-492 | in every state all registered drivers and no others are polled, before anything else |
| `UsbTask.ReleaseAllMeans` | SOC/software/space_jam/include/Usb.cpp:498-500 | a release round reaches exactly the registered drivers |
| `UsbTask.DetachReleases` | SOC/software/space_jam/include/Usb.cpp:468-503 | from the call that finds an attached device gone until the next attach: the controller is initialised and then the drivers are released, exactly once if that call sampled SE0, and not at all if it sampled SE1 |
| `SysEx.GroupCodes` | SOC/software/space_jam/include/usbh_midi.cpp:480-509 | ceil(n/3) event packets, all on the cable, all but the last with code 4, the last with 5, 6 or 7 according to n mod 3 |
| `SysEx.DecodeGroup` | SOC/software/space_jam/include/usbh_midi.cpp:522-551 | extraction takes back the bytes of one event packet |
| `SysEx.DecodeGroups` | SOC/software/space_jam/include/usbh_midi.cpp:465-551 | the round trip: extracting all event packets of a message gives the message back |
| `MidiMessages.SizesAreRight` | SOC/software/space_jam/include/usbh_midi.h:38-105 | the two tables together give every status byte the message length of MIDI 1.0 |
| `MidiMessages.PacketTellsSize` | SOC/software/space_jam/include/usbh_midi.cpp:383-400 | the receiver reads the length of a message off the code of its event packet |
| `MidiDriver.GroupCarries` | SOC/software/space_jam/include/usbh_midi.cpp:480-509 | the event packets of a System Exclusive message carry its bytes in order, with a code that tells their number |
| `MidiDriver.MessageComesBack` | SOC/software/space_jam/include/usbh_midi.cpp:357-400 | what SendData sends for a message, RecvData hands out, with its length |
| `SysEx.BuffersCarryAll` | SOC/software/space_jam/include/usbh_midi.cpp:511-517 | the buffers handed over concatenate to all the event packets in order |
| `SysEx.BuffersFitExactly` | SOC/software/space_jam/include/usbh_midi.cpp:467-517 | for any packet size at all: every buffer is a multiple of 4 and at most 64 bytes if and only if the packet size is at most 64 or the message at most 48 bytes long |
| `SysEx.BuffersFitAfterParsing` | SOC/software/space_jam/include/usbh_midi.cpp:467-517 | for every endpoint table that the descriptor parser can leave behind, from any bytes, no message leaves the 64-byte buffer |
| `SysEx.SysExArrives` | SOC/software/space_jam/include/usbh_midi.cpp:465-551 | a receiver of the first k buffers has a prefix of the message, and all of it once it has all buffers |
| `SysEx.Put` | SOC/software/space_jam/include/usbh_midi.cpp:485-506 | four bytes behind the write pointer |
| `MidiDriver.UsbhMidi.PutGroup` | SOC/software/space_jam/include/usbh_midi.cpp:480-509 | the event packet for what is left to be sent is appended to the buffer |
| `MidiDriver.UsbhMidi.SendSysEx` | SOC/software/space_jam/include/usbh_midi.cpp:465-520 | hands over the buffers in order, each within 64 bytes, until one transfer fails or all are sent: all answers before the last are 0, and the result is the last one |
| `MidiDriver.UsbhMidi.CountSysExDataSize` | SOC/software/space_jam/include/usbh_midi.cpp:443-462 | the length up to the first 0xF7, or 0 exactly when the message does not start with 0xF0 or 0xF7 is not among the first 256 bytes |
| `MidiDriver.UsbhMidi.SendLongMessage` | SOC/software/space_jam/include/usbh_midi.cpp:372-381 | a message is sent up to its end, in the same way; a longer one is dropped and the call reports success |
| `MidiDriver.UsbhMidi.SendShortMessage` | SOC/software/space_jam/include/usbh_midi.cpp:383-413 | one event packet with cable, code, message and zeros; undefined messages go out with two arbitrary bytes |
| `MidiDriver.UsbhMidi.SendData` | SOC/software/space_jam/include/usbh_midi.cpp:372-414 | a message in one event packet, or a System Exclusive message in its buffers |
| `SysExOverUsb.BuffersArrive` | SOC/software/space_jam/include/usbh_midi.cpp:511-517 | when every transfer succeeds the device has the bytes of all buffers in order, whatever its packet size, if all were in time, and is short of some otherwise |
| `SysExOverUsb.DecodeIsShort` | SOC/software/space_jam/include/usbh_midi.cpp:522-551 | extraction yields at most three bytes for each whole event packet |
| `SysExOverUsb.MessageArrives` | SOC/software/space_jam/include/usbh_midi.cpp:465-551 | end to end: buffers by the packet size of one endpoint, USB packets by that of the other; when every transfer reports success the device extracts exactly the message if and only if every transfer was in time |
| `RecvData.StoredExactly` | SOC/software/space_jam/include/usbh_midi.cpp:322-325 | after a transfer of event packets the buffer holds exactly these packets if and only if there are not 15 of them or the two bytes at 60 are zero from before |
| `RecvData.FetchIsExact` | SOC/software/space_jam/include/usbh_midi.cpp:314-369 | a call that fetches a transfer hands out and keeps exactly its packets if and only if the length is neither 0 nor 60 or the bytes left over there are zero |
| `RecvData.CallIsDequeue` | SOC/software/space_jam/include/usbh_midi.cpp:329-369 | one call takes the front packet of the queue; a transfer is fetched only when the buffer is used up |
| `RecvData.RecvDataIsAQueue` | SOC/software/space_jam/include/usbh_midi.cpp:314-369 | conservation over any sequence of calls and transfers (failed ones, and packets in a number other than 0 and 15): handed out, buffered and still to come are together all packets, in order |
| `RecvData.RunDrains` | SOC/software/space_jam/include/usbh_midi.cpp:314-369 | each call does some of the remaining work: after enough of them nothing is buffered or to come |
| `RecvData.AllPacketsAreDelivered` | SOC/software/space_jam/include/usbh_midi.cpp:314-369 | after as many calls as there are transfers and packets the packets handed out are exactly all of them, in order |
| `RecvData.CallIsExact` | SOC/software/space_jam/include/usbh_midi.cpp:314-369 | for transfers of any number of packets: one call conserves them if and only if it fetches no transfer that stale bytes get into |
| `RecvData.QueueExactly` | SOC/software/space_jam/include/usbh_midi.cpp:314-369 | for any transfers of packets and any number of calls: nothing is lost, doubled or out of order after any of them, if and only if no call fetches a transfer of 0 or 15 packets over nonzero stale bytes |
| `RecvData.FifteenPacketsRepeatOne` | SOC/software/space_jam/include/usbh_midi.cpp:322-325 | after 16 packets and then 15 the last of the 16 is handed out again |
| `RecvData.EmptyTransferRepeats` | SOC/software/space_jam/include/usbh_midi.cpp:322-353 | after two packets and an empty transfer a made-up packet and the second packet are handed out again |
| `MidiDriver.UsbhMidi.Fetch` | SOC/software/space_jam/include/usbh_midi.cpp:314-327 | one transfer is stored, with the terminator where it is written |
| `RecvData.TransferFits` | SOC/software/space_jam/include/usbh_midi.cpp:314-317 | for every endpoint table that the descriptor parser can leave behind, one transfer fits the 64-byte buffer |
| `MidiDriver.UsbhMidi.HasUnread` | SOC/software/space_jam/include/usbh_midi.cpp:337-344 | whether the buffer still holds a packet, without an index outside its 64 bytes |
| `MidiDriver.UsbhMidi.TakePacket` | SOC/software/space_jam/include/usbh_midi.cpp:357-368 | the four bytes at readPtr, or three of them, and the message size of their code |
| `MidiDriver.UsbhMidi.RecvData` | SOC/software/space_jam/include/usbh_midi.cpp:329-369 | computes Call, never indexes outside the buffer, and does nothing while polling is off |
| `AlarmTimers.TickIsExact` | SOC/software/space_jam_bsp/HAL/src/alt_tick.c:96-113 | for every stored time and flag: a tick expires the alarm if and only if it is the due one on the unbounded timeline, and any other tick leaves the due time alone |
| `AlarmTimers.StartIsExact` | SOC/software/space_jam_bsp/HAL/src/alt_alarm_start.c:80-96 | a request for n ticks at tick c is due at c + n + 1, if and only if n < 2^32 - 1 or the counter is about to wrap; otherwise it is due on the next tick |
| `AlarmTimers.RearmIsExact` | SOC/software/space_jam_bsp/HAL/src/alt_tick.c:125-137 | a rearmed alarm is due after exactly the interval that was asked for |
| `AlarmTimers.LateRearm` | SOC/software/space_jam_bsp/HAL/src/alt_tick.c:125-137 | the same for an alarm that expires some ticks after its stored time: due the interval after that time; an interval that is not longer than the delay misses, and a shorter one goes around the whole counter |
| `AlarmTimers.CallsAreOnTime` | SOC/software/space_jam_bsp/HAL/src/alt_tick.c:96-138 | over any number of ticks and wraparounds the calls are exactly those of the schedule of due times, never early and never missed |
| `AlarmTimers.RegisteredAlarm` | SOC/software/space_jam_bsp/HAL/src/alt_alarm_start.c:80-96 | registered at tick c for n ticks: first called on tick c + n + 1, then on schedule |
| `AlarmList.Insert` | SOC/software/space_jam_bsp/HAL/inc/sys/alt_llist.h:90-98 | an element becomes the first behind the head of a doubly linked ring |
| `AlarmList.Remove` | SOC/software/space_jam_bsp/HAL/inc/sys/alt_llist.h:105-117 | an element is taken out of the ring and points to itself |
| `AlarmList.AlarmFacility.Start` | SOC/software/space_jam_bsp/HAL/src/alt_alarm_start.c:64-112 | registers an alarm with its time and callback in front of the others, or changes nothing and says why |
| `AlarmList.AlarmFacility.Stop` | SOC/software/space_jam_bsp/HAL/src/alt_tick.c:66-73 | unlinks one registered alarm and no other |
| `AlarmList.AlarmFacility.Visit` | SOC/software/space_jam_bsp/HAL/src/alt_tick.c:104-138 | what becomes of one alarm on a tick, and that no other alarm is touched |
| `AlarmList.AlarmFacility.Turn` | SOC/software/space_jam_bsp/HAL/src/alt_tick.c:100-140 | one turn of the loop, which goes on with the right alarm even when this one was unlinked |
| `AlarmList.AlarmFacility.Pass` | SOC/software/space_jam_bsp/HAL/src/alt_tick.c:100-141 | the loop visits each alarm that was registered at its start exactly once |
| `AlarmList.AlarmFacility.Scan` | SOC/software/space_jam_bsp/HAL/src/alt_tick.c:87-141 | counter and loop: who is called, who stays, in which order, with which times |
| `AlarmList.AlarmFacility.Tick` | SOC/software/space_jam_bsp/HAL/src/alt_tick.c:87-141 | a tick calls exactly the due alarms in list order, unlinks exactly those whose callback returned 0, keeps the others in order, and is a step of the scheduler on values |
| `AlarmRuns.TickIsLife` | SOC/software/space_jam_bsp/HAL/src/alt_tick.c:104-138 | a tick is a step in the life of each single alarm |
| `AlarmRuns.CalledWhenDue` | SOC/software/space_jam_bsp/HAL/src/alt_tick.c:108-138 | an alarm is called if and only if the tick is its due one, and is due again after its interval |
| `AlarmRuns.ListOfLives` | SOC/software/space_jam_bsp/HAL/src/alt_tick.c:87-141 | after any number of ticks the list is that of the alarms whose own lives go on, in their order, whatever the others do |
| `AlarmRuns.CallsOfLife` | SOC/software/space_jam_bsp/HAL/src/alt_tick.c:87-141 | over any number of ticks, and however the others come and go, an alarm is called on the ticks of its own life |
| `AlarmRuns.EachOnSchedule` | SOC/software/space_jam_bsp/HAL/src/alt_tick.c:87-141 | over any number of ticks and wraparounds each registered alarm is called on exactly the ticks of its schedule |
| `AlarmStops.WalkFrom` | SOC/software/space_jam_bsp/HAL/src/alt_tick.c:100-141 | from any point of a walk in which callbacks stop other alarms: it ends after one turn for each alarm that is to be visited, or never |
| `AlarmStops.PassEnds` | SOC/software/space_jam_bsp/HAL/src/alt_tick.c:66-141 | the tick handler comes back if and only if no alarm that it visits stops the one right behind it; then it visits the others in order, and those that were stopped are gone |
| `AlarmStops.StoppingTheNext` | SOC/software/space_jam_bsp/HAL/src/alt_tick.c:66-141 | with two alarms of which the first stops the second it never comes back |
| `TimeOfDay.WrapIsHarmless` | SOC/software/space_jam_bsp/HAL/src/alt_settod.c:83-84 | the 32-bit product has the right remainder by a million if and only if it wrapped a multiple of 5^6 times |
| `TimeOfDay.GetAfterSet` | SOC/software/space_jam_bsp/HAL/src/alt_gettod.c:89-112 | what is read is the time that was set plus the ticks since then, off by the difference of the two products, cut off at zero and normalised |
| `TimeOfDay.SetThenGet` | SOC/software/space_jam_bsp/HAL/src/alt_settod.c:80-85 | reading gives exactly the set time plus the ticks since then if and only if the product in settimeofday wrapped a multiple of 5^6 times, or that time is zero and the error would make it negative |
| `TimeOfDay.TimeIsMonotone` | SOC/software/space_jam_bsp/HAL/src/alt_gettod.c:89-112 | the time that is read never runs backwards and always has microseconds below a million |
| `TimeOfDay.SetLateIsWrong` | SOC/software/space_jam_bsp/HAL/src/alt_settod.c:83-84 | with a 1 kHz clock a time set 4295 s after reset comes back 967 ms ahead |
| `TimeOfDay.SystemClock.SetTimeOfDay` | SOC/software/space_jam_bsp/HAL/src/alt_settod.c:72-96 | stores the reset time and zone, or fails without a clock and changes nothing |
| `TimeOfDay.SystemClock.GetTimeOfDay` | SOC/software/space_jam_bsp/HAL/src/alt_gettod.c:70-124 | the two normalising loops end and compute Now; without a clock there is no time |
| `FdTable.InitialInv` | SOC/software/space_jam_bsp/HAL/src/alt_dev.c:118-149 | the initial table satisfies the invariant |
| `FdTable.StepKeepsInv` | SOC/software/space_jam_bsp/HAL/src/alt_open.c:105-171 | every open, close, ioctl and redirection keeps it: allocated descriptors above 2 are at most alt_max_fd, free ones carry no flags, only devices are locked, and a locked descriptor lies below all others of its device |
| `FdTable.FailedOpenRestores` | SOC/software/space_jam_bsp/HAL/src/alt_open.c:159-166 | a failed open leaves every descriptor as it was; a successful one changes exactly the free descriptor that it returns |
| `FdTable.LockedDeviceCannotBeOpened` | SOC/software/space_jam_bsp/HAL/src/alt_open.c:64-92 | while a descriptor holds the lock of a device no open of that device succeeds |
| `FdTable.LockSurvivesStep` | SOC/software/space_jam_bsp/HAL/src/alt_ioctl.c:127-139 | a lock is ended by exactly these: a TIOCNXCL on its descriptor, a close of it above the standard streams, a redirection of it that succeeds |
| `FdTable.LockHolds` | SOC/software/space_jam_bsp/HAL/src/alt_open.c:64-171 | in every run without these, closes of a locked standard stream included: the lock holds and every open of the device fails |
| `FdTable.CloseUnlocksExactly` | SOC/software/space_jam_bsp/HAL/src/alt_release_fd.c:44-51 | close leaves a lock in place if and only if the descriptor is a standard stream |
| `FdTable.ClosedStreamStaysLocked` | SOC/software/space_jam_bsp/HAL/src/alt_close.c:64-101 | a stream that is redirected to a device, locked and closed is still locked, and the device cannot be opened |
| `FdTable.OneLockPerDevice` | SOC/software/space_jam_bsp/HAL/src/alt_fd_lock.c:54-75 | in every run no two descriptors hold a lock on the same device |
| `FdTable.LockKeepsInv` | SOC/software/space_jam_bsp/HAL/src/alt_fd_lock.c:61-69 | granting a lock keeps the invariant although the scan leaves out the descriptor at alt_max_fd |
| `FdTable.LockIsRight` | SOC/software/space_jam_bsp/HAL/src/alt_fd_lock.c:61-69 | the lock is granted as documented if and only if the descriptor at alt_max_fd is not the only other one of the device |
| `FdTable.LockBesideAnOpenDescriptor` | SOC/software/space_jam_bsp/HAL/src/alt_fd_lock.c:61-69 | the first of two open descriptors of a device gets the lock |
| `FdRuns.CloseFrees` | SOC/software/space_jam_bsp/HAL/src/alt_close.c:64-101 | after close, whatever the device says, a descriptor above the standard streams is free; nothing else changes, and nothing at all for the standard streams and negative numbers; 0 is returned exactly when the device agrees |
| `FdRuns.OpenSucceedsExactly` | SOC/software/space_jam_bsp/HAL/src/alt_open.c:105-171 | open succeeds if and only if the device exists, the table has room, nobody holds a lock on the device, and the device agrees; otherwise the first of these that fails is the error |
| `FdRuns.OpenTakesLowest` | SOC/software/space_jam_bsp/HAL/src/alt_get_fd.c:54-101 | it opens the lowest free descriptor, unlocked, and changes no other |
| `FdRuns.RedirectMoves` | SOC/software/space_jam_bsp/HAL/src/alt_io_redirect.c:58-72 | a redirected stream refers to the device, unlocked; every other descriptor is as before |
| `FdRuns.IoctlLocks` | SOC/software/space_jam_bsp/HAL/src/alt_ioctl.c:106-168 | the lock requests change the lock of that descriptor and nothing else, setting it exactly when it is granted; all others change nothing |
| `FdRuns.OpenAfterRun` | SOC/software/space_jam_bsp/HAL/src/alt_open.c:105-171 | after any run the open descriptors above the standard streams are exactly those that were opened and not closed since |
| `FdRuns.OpenFromStart` | SOC/software/space_jam_bsp/HAL/src/alt_close.c:64-101 | the same from the start of the system |
| `FdRuns.OpenThenClose` | SOC/software/space_jam_bsp/HAL/src/alt_release_fd.c:44-51 | a device that is opened and closed leaves the descriptors as they were |
| `FdTable.FdList.constructor` | SOC/software/space_jam_bsp/HAL/src/alt_dev.c:118-149 | three standard streams on /dev/null, the rest free |
| `FdTable.FdList.GetFd` | SOC/software/space_jam_bsp/HAL/src/alt_get_fd.c:54-101 | the lowest free descriptor is taken and the high-water mark raised; a full table is left alone |
| `FdTable.FdList.FileLocked` | SOC/software/space_jam_bsp/HAL/src/alt_open.c:64-92 | marks a device and finds a lock on it anywhere up to alt_max_fd |
| `FdTable.FdList.ReleaseFd` | SOC/software/space_jam_bsp/HAL/src/alt_release_fd.c:44-51 | a descriptor above 2 becomes free; the standard streams stay |
| `FdTable.FdList.AltOpen` | SOC/software/space_jam_bsp/HAL/src/alt_open.c:105-171 | computes Open, with the error of each branch |
| `FdTable.FdList.AltClose` | SOC/software/space_jam_bsp/HAL/src/alt_close.c:64-101 | computes Close: the descriptor is released whatever the device says |
| `FdTable.FdList.FdLock` | SOC/software/space_jam_bsp/HAL/src/alt_fd_lock.c:54-75 | computes Lock |
| `FdTable.FdList.FdUnlock` | SOC/software/space_jam_bsp/HAL/src/alt_fd_unlock.c:52-56 | clears the lock of one descriptor |
| `FdTable.FdList.AltIoctl` | SOC/software/space_jam_bsp/HAL/src/alt_ioctl.c:106-168 | computes Ioctl: lock requests of devices are handled here, all others by the device |
| `FdTable.FdList.OpenFd` | SOC/software/space_jam_bsp/HAL/src/alt_io_redirect.c:58-72 | a standard stream takes over a freshly opened descriptor, or stays as it is |
| `LogPrintf.TextReadsBack` | SOC/software/space_jam_bsp/HAL/src/alt_log_printf.c:206-297 | for every 32-bit value, base 8, 10 or 16, sign, case, padding and width: the output reads back as the number, has no superfluous leading zero, and is as long as the wider of width and number |
| `LogPrintf.TextLooksRight` | SOC/software/space_jam_bsp/HAL/src/alt_log_printf.c:257-296 | letters are lower case, and upper case exactly for %X; zeros fill the field behind the sign, or blanks in front of it |
| `LogPrintf.CountRange` | SOC/software/space_jam_bsp/HAL/src/alt_log_printf.c:247-255 | the digit count gives the place value range of the number |
| `LogPrintf.DigitsMean` | SOC/software/space_jam_bsp/HAL/src/alt_log_printf.c:281-296 | the digits have the value of the number in the base and no zero in front |
| `LogPrintf.PlaceFits` | SOC/software/space_jam_bsp/HAL/src/alt_log_printf.c:251-255 | the place value never overflows 32 bits |
| `LogPrintf.LogPort.RepChar` | SOC/software/space_jam_bsp/HAL/src/alt_log_printf.c:106-110 | a character is sent as often as asked, not at all for a negative number |
| `LogPrintf.LogPort.Measure` | SOC/software/space_jam_bsp/HAL/src/alt_log_printf.c:247-255 | counts the digits and finds the place value of the first |
| `LogPrintf.LogPort.PrintDigits` | SOC/software/space_jam_bsp/HAL/src/alt_log_printf.c:281-296 | prints the digits from the highest place down, without overflow |
| `LogPrintf.LogPort.PrintInteger` | SOC/software/space_jam_bsp/HAL/src/alt_log_printf.c:206-297 | sends exactly Text |
| `Voices.StepIsBagStep` | SOC/software/space_jam/main.cpp:90-122 | one event changes the sounding notes like a bounded bag if and only if it is not a Note Off for note 0 that meets a free voice before the voice that plays note 0 |
| `Voices.VoicesAreABag` | SOC/software/space_jam/main.cpp:72-123 | for any number of voices and any events but a Note Off for note 0: the sounding notes are those of a bag with room for so many notes, the first Note On left out |
| `Voices.BagExactly` | SOC/software/space_jam/main.cpp:72-123 | for any events at all: the sounding notes are those of the bag after each event if and only if no Note Off for note 0 meets a free voice before the voice that plays note 0 |
| `Voices.SoundingSize` | SOC/software/space_jam/main.cpp:99-106 | there is a free voice exactly when the bag has room |
| `Voices.StepKeepsRegisters` | SOC/software/space_jam/main.cpp:107-121 | a voice stays in use exactly when its register is nonzero, if and only if the event is not a Note On for note 0 with velocity 0 that finds a free voice |
| `Voices.RegistersTellUse` | SOC/software/space_jam/main.cpp:72-123 | the same for whole runs |
| `Voices.RegistersTellExactly` | SOC/software/space_jam/main.cpp:72-123 | for any events at all: after each of them the registers tell which voices are in use, if and only if no Note On for note 0 with velocity 0 finds a free voice |
| `Voices.NoteZeroSticks` | SOC/software/space_jam/main.cpp:88-122 | four events after the start, note 0 sounds behind a free voice and cannot be turned off |
| `Voices.ChannelsAreIgnored` | SOC/software/space_jam/main.cpp:90-116 | status bytes 0x90 to 0x9F are Note On, 0x80 to 0x8F Note Off, on any channel, and all others are ignored |
| `Voices.EventLoop.constructor` | SOC/software/space_jam/main.cpp:56-79 | all voices free and silent, the first Note On still to come |
| `Voices.EventLoop.PlayNote` | SOC/software/space_jam/main.cpp:97-112 | the first free voice gets the note, as 256 * note + velocity in its register; without one nothing changes |
| `Voices.EventLoop.StopNote` | SOC/software/space_jam/main.cpp:115-122 | the first voice whose register shows the note is silenced |
| `Voices.EventLoop.HandlePacket` | SOC/software/space_jam/main.cpp:88-123 | the switch on the status byte, with the first Note On swallowed |

## Left out

- ParseTools.ByteSkipper.Skip: the buffer pointer of the skipper, which is never used.
- PtpList.PTPListParser.Parse: a buffer shorter than four bytes, from which the original reads its length beyond the end.
- ConfigParser.ConfigDescParser.Complete: the printing of HID descriptors.
- MidiParser.MidiDescParser.constructor: isGoodInterface is undefined in the original; it is arbitrary here, so that theorems about counts exclude an accepted endpoint in front of every interface.
- AddressPool.AddressPoolImpl.AllocAddress: the invariant is kept only for callers that hang devices on live hubs, attach one device to the root and use a port once; the original checks none of this.
- DispatchPkt.HostController.Dispatch: the clock is assumed to reach the deadline and to be read at least once in 2^31 ms.
- InTransfer.InPipe.InTransfer: requests of 32768 bytes or more, where the signed 16-bit arithmetic goes wrong; endpoint toggles, which the controller keeps and a toggle error corrects.
- InTransfer.ReceiveConforms: devices that send packets longer than their packet size, or data in the middle that is not a full packet.
- ControlTransfer.CtrlReqIn: a device that sends packets longer than its packet size to a parser; looking up the endpoint in SetAddress, whose result code is an input, as are those of the setup and status stages.
- OutTransfer.DeliveredInTime: calls that last 2^31 ms or more, where the comparison of 32-bit times turns round; waiting for a launch to complete, which has no deadline there, is one step.
- UsbTask.UsbHost.Task: what the drivers do in Poll, Release and Configuring; the result of Configuring is an input. A call that sets the state from outside, through setUsbTaskState, is not modelled.
- ControlTransfer.GetConfDescr: a device whose first answer announces a total length other than that of its descriptors; the loop of Init over several configurations.
- MidiDriver.UsbhMidi.SendSysEx: the transfer itself, whose result code is arbitrary there, as in `SendShortMessage`; what becomes of a buffer in outTransfer is the subject of `SysExOverUsb`.
- MidiDriver.UsbhMidi.RecvData: after the last transfer of the script every further one is a NAK; the bytes of a failed transfer are not counted as received.
- AlarmList.AlarmFacility.Start: registering an alarm that is registered already, which would break the list; interrupts are off in the original while it changes the list.
- AlarmList.AlarmFacility.Visit: callbacks that start or stop other alarms; a callback's answer may be a different one on each tick. Stopping others is modelled on values, in `AlarmStops`.
- TimeOfDay.SetThenGet: tick rates that do not divide a million, wraps of the tick counter after the time was set, and the last two seconds of 32-bit time.
- FdTable.FdList.AltOpen: the name lookup, whose outcome is an input; the private data of a descriptor; the semaphore.
- FdTable.FdList.AltClose: closing or controlling a descriptor that is not open, for which the original follows a null pointer.
- LogPrintf.LogPort.PrintInteger: the format string, characters and strings; the values come with their format.
- Voices.EventLoop.HandlePacket: the mute flag, which nothing sets, and the clock values that nothing reads.
- Registers of the codec and of the host controller, I2C, SPI and PIO access, hubs and HID devices, the Xbox driver, direct drivers, start-up code: tables and hardware access without a hard property.
- Driver selection in Configuring and AttemptConfig, VID and PID tables, string descriptors: they would add easy members.
