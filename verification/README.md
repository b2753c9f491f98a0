# Wi-Fi HAL and supplicant library: a verified model

This project models the vendor Wi-Fi HAL in `wifi_hal/`, three routines of the vendor supplicant library in
`wpa_supplicant_8_lib/`, and the colour-format macros in `include/`, and proves what they promise. Run
`dafny verify dfyconfig.toml` to check all of it.

| module | what it models |
|---|---|
| `Assoc` | the abstract value of the handler table and the command table: a bounded list found and removed by key |
| `Hal` | `hal_info`'s two tables, kept in place in arrays, and the delivery of one event under `cb_lock` |
| `Lifetime` | reference counts, tables, dispatch, cancel and self-completion as a step machine over any number of threads |
| `Dispatch` | a dispatch in a run of `Lifetime` and the delivery in `Hal`, as one sequence of actions |
| `Cleanup` | the handshake of `wifi_event_loop` with `wifi_cleanup`, as a step machine |
| `StartCancel`, `RequestEvent` | what start, cancel and the two blocking requests leave in the handler table |
| `Netlink` | attribute bytes, `nl_iterator`, and the encoding of nested attributes |
| `ScanRequest`, `ScanRoundTrip` | `WifiRequest`, the scan set-up message, and a receiver that walks it |
| `RttRequest` | the RTT set-up message and a receiver that walks it |
| `ScanCache`, `ScanReply` | retrieval of cached scan results over several requests, and replies as a driver builds them |
| `Rtt` | RTT results collected over events, their buffers, and the elements that follow a result |
| `SharedFreqs`, `StaStats` | the shared-frequency collector and the statistics printer of the supplicant library |
| `HexDump` | the hex dump of an event |
| `ColorFormat` | colour formats packed into a word |

Code that works in place is modelled in place: classes with the source's fields, arrays, and the source's loops, each
proved against a function of its inputs; what the source promises is then proved about that function. The two
concurrent protocols are step machines, and their theorems speak of every run.

## What the model takes for granted

* In `Lifetime`, operations on the command table are single steps (the code has no lock there), and a step of one
  thread is never torn by another. Callers keep three rules: a handler key is not registered while an entry for it is
  in the table, a request id is not used again while it is in the command table or belongs to a command that completes
  itself and still exists, and a request is not cancelled while the start that made it is running. (A start that failed
  and took its command out of the table may be tried again with the same id: `RetryAllowed`.) Each of the three is
  needed: `SharedKeyBreaks`, `ReusedIdBreaks` and `OverlappingCancelBreaks` give runs that keep the other two and still
  touch a deleted command. The library does not enforce the first rule: `ScanCommand` and `FullScanResultsCommand`
  register the same key.
* In `Cleanup`, `wifi_cleanup` is called once, at some time after the loop was started.
* Numbers from headers that are not in the repository (sizes of HAL structures, error codes) are parameters or
  constants of which only the sign or the distinctness matters; netlink attribute numbers are the kernel's, and numbers
  are stored little-endian. `byte` is unsigned.
* Sending, receiving, polling, allocation and the driver's messages are arbitrary inputs.

## Where the code does less than it seems to

* **Cleanup.** The clean-up runs exactly once, and nothing reads `hal_info` after it was freed, if and only if the
  exit of the loop (from clearing `in_event_loop` to looking at `clean_up`) and the call (from setting `clean_up` to
  looking at `in_event_loop`) do not overlap; otherwise it runs twice (`CleanedUpOnce`, `NoUseAfterFree`,
  `OverlapHappens`). With the call and the exit each made in one go it runs once (`AtomicCleansUpOnce`).
* **Command table.** `wifi_unregister_cmd` moves one slot more than there is behind the entry: it reads past the
  allocation exactly when the table is full. The live entries never show it (`UnregisterCmd`).
* **Failed starts.** A failed RTT or RSSI-monitoring start never touches the handler table. ePNO and the first failure
  path of hotlist remove handlers they have not registered, so another command loses its handler whenever there is one
  (`FailedStartRestores`, `RemovalHarmlessIffAbsent`).
* **requestEvent** for the vendor command never unregisters its handler (`VendorAsPlainStays`).
* **Attributes that were never opened.** Nobody looks at whether a nested attribute could be opened. An empty one is
  closed all the same: the list of channels for a negative count, the list of targets for none; the `nullEnd` results of
  the two `CreateSetupRequest` methods say exactly when.
* **Scan set-up.** From eleven buckets on, a bucket has the attribute type of the bucket count
  (`TypesTellBucketsApart`).
* **RTT set-up.** The count of targets is a single byte, so it is right only below 256 targets
  (`RttRequestRoundTrip`).
* **RTT trailing elements.** The size of a record is taken off twice, so a second element is lost exactly when no more
  than a record's size of bytes is left where it starts (`SecondElementLost`); the first element is read past the
  buffer when fewer than five bytes follow the record (`DependsOnMemoryBeyond`).
* **RTT allocation failure.** An event leaves the measurement complete if and only if the last of its flags and failed
  allocations is a failure or a flag other than zero, and as it was if there is none (`CompletedByTheLast`). So a
  failure is forgotten exactly when the last of them is a flag of zero (`FailureForgotten`).
* **RTT results past the array.** Nothing stops more than 1024 results from running over the array: that happens
  exactly when, at some attribute, those held and those an allocation is asked for are together more
  (`OverrunExactly`), so never while those held and those sent fit, whatever allocations fail (`EnoughRoom`,
  `RoomForEachEvent`).
* **Cached scans.** A result attribute is measured by the size of one structure and read by that of another; the
  copies stay inside it if and only if the second is not the larger (`CopiesStayInside`), and no record is lost by it if
  the first is not (`KeptInFull`). A scan without records takes no slot (`ReplyRoundTrip`). The vendor data is taken for
  an attribute by a length of its own, which nothing compares with the data's (`UnwrappingReadsBeyond`).

## Model

| member | source | states |
|---|---|---|
| Lifetime.StepKeepsInv | wifi_hal/wifi_hal.cpp:532-560 | any step of any thread, in any state the invariant allows, touches only commands that exist and keeps the invariant |
| Lifetime.RunInv | wifi_hal/common.cpp:53-245 | every state of every run that keeps the callers' three rules satisfies the invariant |
| Lifetime.NoUseAfterDelete | wifi_hal/wifi_hal.cpp:544-557 | in every interleaving of dispatch, start, cancel and self-completion, no step touches a deleted command |
| Lifetime.HandlersNameOwnedCommands | wifi_hal/wifi_hal.cpp:547-550 | every handler entry names a command that exists and has its owner reference, so `addRef` starts from at least one |
| Lifetime.ReferencesConserved | wifi_hal/cpp_bindings.h:245-259 | `mRefs` is the owner reference plus the dispatches in flight; a command exists if and only if that sum is positive |
| Lifetime.OwnerReleasedOnce | wifi_hal/rtt.cpp:618-620 | cancel and completion racing on one request release the owner reference at most once in a run |
| Lifetime.DeletedOnce | wifi_hal/cpp_bindings.h:252-259 | a command is deleted at most once in a run |
| Lifetime.RetryAllowed | wifi_hal/gscan.cpp:686-693 | a failed start that dropped its command can be tried again with the same id, although the command is never released |
| Lifetime.DispatchedCommandLives | wifi_hal/cpp_bindings.cpp:692-705 | a command being dispatched exists, also after it released itself inside its callback, until the dispatcher's own final release |
| Lifetime.ClaimedCommandLives | wifi_hal/common.cpp:232-242 | a command that is being started, or that a cancel has got out of the table, exists and has its owner reference |
| Lifetime.RegisteredIsFound | wifi_hal/common.cpp:78-102 | once a key is registered, with room in the 64 slots, its events find the command and all others what they found before |
| Lifetime.UnregisteredIsGone | wifi_hal/common.cpp:130-151 | after any step that unregisters a key, no handler is found for it |
| Lifetime.OwnerReleaseEnds | wifi_hal/rtt.cpp:618-620 | when the owner releases its reference no table names the command, and it is gone unless a dispatch of it is in flight |
| Dispatch.DispatchIsDelivery | wifi_hal/wifi_hal.cpp:532-563 | in any run, whatever other threads do in between, the steps of one dispatch are exactly the locking, reference changes and call of the delivery on the table as it was at the look-up |
| Dispatch.ActionsCount | wifi_hal/cpp_bindings.h:245-259 | the references those actions take and give back are what the steps do to the counts; at zero the command is gone |
| Lifetime.TakeForCancelKeepsInv | wifi_hal/common.cpp:232-242 | the cancel that gets the command out of the table becomes the only claimant of its owner reference |
| Lifetime.TakeOnCompletionKeepsInv | wifi_hal/rtt.cpp:618-620 | a completing command gets nothing but itself out of the command table |
| Lifetime.AddRefKeepsInv | wifi_hal/wifi_hal.cpp:544-552 | the reference taken under the lock is taken on a command that its owner still holds |
| Lifetime.DispatchReleaseKeepsInv | wifi_hal/wifi_hal.cpp:554-557 | the dispatcher's release deletes the command only when nothing else refers to it |
| Lifetime.SharedKeyBreaks | wifi_hal/common.cpp:130-148 | with two commands on one key, a cancel and an event reach a deleted command although the other rules are kept |
| Lifetime.OverlappingCancelBreaks | wifi_hal/gscan.cpp:716-733 | a cancel during the start of the same full-scan request deletes the command under it |
| Lifetime.ReusedIdBreaks | wifi_hal/rtt.cpp:618-620 | with a reused request id, a completing command releases another one, which keeps its handler |
| Cleanup.CleanedUpOnce | wifi_hal/wifi_hal.cpp:414-498 | in every terminating run the clean-up and the cleaned-up handler run once if the exit window and the call do not overlap, else twice |
| Cleanup.NoUseAfterFree | wifi_hal/wifi_hal.cpp:441-498 | no step finds `hal_info` freed if and only if the windows do not overlap |
| Cleanup.NotCleanedUpEarly | wifi_hal/wifi_hal.cpp:414-427 | without overlap the clean-up has run exactly when both threads are done |
| Cleanup.LoopEndsWhen | wifi_hal/wifi_hal.cpp:457-490 | polling goes on until a poll or a read fails, the stop byte is read, or the loop looks at `clean_up` after `wifi_cleanup` was called |
| Cleanup.StopByteWasSent | wifi_hal/wifi_hal.cpp:414-427 | there is a stop byte to read only if `wifi_cleanup` found the loop running |
| Cleanup.AtomicCleansUpOnce | wifi_hal/wifi_hal.cpp:414-498 | with the call and the loop's exit each in one go, one clean-up, one handler call and no use after it in every terminating run |
| Cleanup.OverlapHappens | wifi_hal/wifi_hal.cpp:492-495 | there is a run, after a poll failure, in which the clean-up runs twice |
| Cleanup.RunInv | wifi_hal/wifi_hal.cpp:414-498 | every state of every run: which flags are set where the two threads are, and how often the clean-up has run |
| Hal.HalInfo.constructor | wifi_hal/wifi_hal.cpp:242-254 | both tables start empty, with 64 slots each |
| Hal.HalInfo.RegisterHandler | wifi_hal/common.cpp:53-76 | appends to the live entries, or refuses without a trace when the table is full |
| Hal.HalInfo.RegisterVendorHandler | wifi_hal/common.cpp:78-102 | the same with the vendor command, id and subcommand as key |
| Hal.HalInfo.UnregisterHandler | wifi_hal/common.cpp:104-128 | removes the first entry for the command and keeps the order of the others; refuses the vendor command |
| Hal.HalInfo.UnregisterVendorHandler | wifi_hal/common.cpp:130-151 | removes the first entry for the id and subcommand and keeps the order of the others |
| Hal.HalInfo.RegisterCmd | wifi_hal/common.cpp:154-174 | appends to the live commands, or refuses when the table is full |
| Hal.HalInfo.GetCmd | wifi_hal/common.cpp:201-215 | the first command with the request id, or NULL |
| Hal.HalInfo.UnregisterCmd | wifi_hal/common.cpp:176-199 | returns what a lookup would have, removes exactly that entry, and reads past the allocation exactly when the table was full |
| Hal.HalInfo.UnregisterCmdByValue | wifi_hal/common.cpp:217-230 | removes the first entry for the command, keeps the order of the others, and reads past the allocation exactly when the table was full |
| Hal.MoveDownOver | wifi_hal/common.cpp:187 | the slot read past the allocation reaches only the last slot written |
| Hal.RemoveFirstValueAt | wifi_hal/common.cpp:217-230 | removal by value cuts out the first entry with that value, wherever it is |
| Hal.TableHistory | wifi_hal/common.cpp:53-230 | over any sequence of operations a table stays inside its allocation and holds registered entries in order of registration |
| Hal.HalInfo.HandleValidMessage | wifi_hal/wifi_hal.cpp:505-565 | does exactly the locking, reference changes and callback of the delivery function, nothing for a message that does not parse |
| Hal.DeliveryCallsFirstMatch | wifi_hal/wifi_hal.cpp:534-560 | an event calls the earliest matching callback and no other, at most one; without a match none |
| Hal.DeliveryReferences | wifi_hal/wifi_hal.cpp:544-557 | no reference is given back before it is taken, exactly one on the command is held when its callback is called, and none on any command at the end |
| Hal.DeliveryLocking | wifi_hal/wifi_hal.cpp:532-563 | the lock is free at the end and during the callback, and held for the `addRef` |
| Assoc.RemoveAppended | wifi_hal/common.cpp:53-151 | registering an absent key and unregistering it gives the table back, full or not |
| Assoc.RemoveFromTail | wifi_hal/common.cpp:104-151 | a removal leaves everything in front of the first entry with the key alone |
| Assoc.RemoveKeepsOthers | wifi_hal/common.cpp:104-151 | a removal adds nothing and takes no entry with another key |
| Assoc.RemoveKeepsDistinct | wifi_hal/common.cpp:104-151 | with each key at most once, a removal leaves none for its key and keeps the keys distinct |
| StartCancel.ScanCommand.Start | wifi_hal/gscan.cpp:570-620 | the first failing step decides the result; before the last nothing is touched, at the last the three registrations are taken back, else they stay: then, with room, the command hears events 2, 3 and 5 and no other; a failure changes nothing if these had no handler |
| StartCancel.ScanCommand.Cancel | wifi_hal/gscan.cpp:622-640 | removes the three events whatever the exchange does: with distinct keys the command no longer hears 2, 3 and 5, and all others as before |
| StartCancel.RegisterFirstCommand.Start | wifi_hal/gscan.cpp:354-372 | full-scan (and passpoint): nothing touched if the request cannot be built, the registration taken back if it fails, else the command hears its event and no other |
| StartCancel.RegisterFirstCommand.Cancel | wifi_hal/gscan.cpp:374-390 | removes the event whatever the exchange does; the command hears it no longer, and all others as before |
| StartCancel.RegisterFirstCommand.FullScan | wifi_hal/gscan.cpp:362 | the full-scan command listens for event 3 |
| StartCancel.RegisterFirstCommand.Anqpo | wifi_hal/gscan.cpp:1779 | the passpoint command listens for event 9 |
| StartCancel.BssidHotlistCommand.Start | wifi_hal/gscan.cpp:1069-1104 | which of the four steps fails decides: the second only removes, the fourth takes the registrations back, the others touch nothing; after success the command hears events 1 and 6 and no other |
| StartCancel.BssidHotlistCommand.Cancel | wifi_hal/gscan.cpp:1106-1124 | removes both events before any message can fail; the command hears 1 and 6 no longer, and all others as before |
| StartCancel.EpnoCommand.Start | wifi_hal/gscan.cpp:1286-1305 | a failed exchange only removes, a request that cannot be built touches nothing; after success the command hears event 8 and no other |
| StartCancel.EpnoCommand.Cancel | wifi_hal/gscan.cpp:1307-1324 | removes the event before any message can fail; the command hears 8 no longer, and all others as before |
| StartCancel.SignificantWifiChangeCommand.Start | wifi_hal/gscan.cpp:1481-1514 | the first three failures touch nothing, the last takes the registration back; after success the command hears event 0 and no other |
| StartCancel.SignificantWifiChangeCommand.Cancel | wifi_hal/gscan.cpp:1516-1535 | removes the event before any message can fail; the command hears 0 no longer, and all others as before |
| StartCancel.RegisterLastCommand.Start | wifi_hal/rtt.cpp:462-480 | RTT (and RSSI monitoring): no failure ever touches the table; after success the command hears its event and no other |
| StartCancel.RegisterLastCommand.Cancel | wifi_hal/rtt.cpp:482-498 | removes the event whatever the exchange does; the command hears it no longer, and all others as before |
| StartCancel.RegisterLastCommand.Rtt | wifi_hal/rtt.cpp:477 | the RTT command listens for event 4 |
| StartCancel.RegisterLastCommand.RssiMonitor | wifi_hal/wifi_hal.cpp:1079 | the RSSI-monitoring command listens for event 7 |
| StartCancel.StartedHears | wifi_hal/common.h:72-83 | for any command without a handler: with room, and none for its events, registration makes it hear those events and no other |
| StartCancel.CancelSilences | wifi_hal/common.cpp:130-151 | with distinct keys, unregistering makes it deaf to its events and to no other |
| StartCancel.FailedStartRestores | wifi_hal/gscan.cpp:1286-1305 | for every command that had no handler and every failure: the table is as it was if and only if it was not touched or none of the events had a handler |
| StartCancel.RemovalHarmlessIffAbsent | wifi_hal/gscan.cpp:1078-1084 | removing events leaves the table as it was if and only if it had no handler for any of them |
| StartCancel.FailedStartChangesNothing | wifi_hal/gscan.cpp:570-620 | for every command and every failure, the table is as it was if it was not touched or its events had no handler |
| StartCancel.StartThenCancel | wifi_hal/gscan.cpp:570-640 | start and cancel give the table back, also when a full table refused some registrations |
| StartCancel.CancelRemovesExactly | wifi_hal/common.cpp:130-151 | with distinct keys a cancel takes out exactly its events and keeps all others in order, whatever happened since the start |
| StartCancel.RestoredIffAbsent | wifi_hal/common.cpp:130-151 | the table is given back if and only if none of the events had a handler before |
| RequestEvent.WifiCommand.RequestEvent | wifi_hal/cpp_bindings.cpp:625-650 | result and table on every exit path; the vendor command is not unregistered |
| RequestEvent.WifiCommand.RequestVendorEvent | wifi_hal/cpp_bindings.cpp:652-674 | result and table on every exit path |
| RequestEvent.RestoredIffAbsent | wifi_hal/cpp_bindings.cpp:652-674 | the table is restored if and only if the registration was refused or the key was absent |
| RequestEvent.VendorAsPlainStays | wifi_hal/common.cpp:104-111 | the vendor command as a plain command leaves its entry behind unless the table was full |
| RequestEvent.WaiterHears | wifi_hal/cpp_bindings.cpp:625-674 | while it waits the command is called for its event, whatever else a plain event holds; afterwards nobody is |
| RequestEvent.OthersUndisturbed | wifi_hal/cpp_bindings.cpp:642-649 | whatever others do under other keys while it waits, the exchange is as if it had not been, but for one slot |
| RequestEvent.RemoveCommutes | wifi_hal/common.cpp:130-151 | removals under different keys commute |
| Netlink.NlIterator.HasNext | wifi_hal/cpp_bindings.h:99-101 | true exactly when the walk has something left |
| Netlink.NlIterator.Get | wifi_hal/cpp_bindings.h:105-128 | the next attribute of the walk |
| Netlink.NlIterator.Next | wifi_hal/cpp_bindings.h:102-104 | drops one attribute; the remaining length goes strictly down |
| Netlink.WalkStaysInside | wifi_hal/cpp_bindings.h:91-128 | on any bytes, every attribute shown lies inside them with its payload |
| Netlink.WalkIsContiguous | wifi_hal/cpp_bindings.h:99-104 | the attributes shown are in order, without gap or overlap |
| Netlink.WalkStarts | wifi_hal/cpp_bindings.h:91-128 | a walk byte by byte: length in the first two bytes, type in the next two, lower byte first, the payload behind them, and on at the next multiple of four |
| Netlink.WalkLayout | wifi_hal/cpp_bindings.h:91-128 | a walk of a well-formed buffer shows every attribute and takes up every byte |
| Netlink.WalkCoversWellFormed | wifi_hal/cpp_bindings.h:91-128 | a walk takes up the whole buffer if and only if the buffer is a sequence of attributes |
| Netlink.WalkShowsTree | wifi_hal/cpp_bindings.h:91-203 | nested walks of the bytes of any attribute tree give back the tree |
| Netlink.AttributeBytes | wifi_hal/cpp_bindings.h:176-203 | the bytes of an attribute: length, type, body, and zeros up to the next multiple of four |
| ScanRequest.WifiRequest.Put | wifi_hal/cpp_bindings.h:176-178 | appended exactly if it fits, else refused without a trace |
| ScanRequest.WifiRequest.AttrStart | wifi_hal/cpp_bindings.h:198-200 | the place of the opened attribute, or NULL exactly when it does not fit |
| ScanRequest.WifiRequest.AttrEnd | wifi_hal/cpp_bindings.h:201-203 | what was put since the start has become one nested attribute |
| ScanRequest.WifiRequest.Create | wifi_hal/cpp_bindings.cpp:551-574 | succeeds exactly when there is memory and the preamble fits, and then the message is the preamble |
| ScanRequest.PutChannels | wifi_hal/gscan.cpp:509-521 | the channel list as one nested attribute, exactly if it fits; an empty one is closed unopened exactly if its header does not fit |
| ScanRequest.PutBucket | wifi_hal/gscan.cpp:467-523 | a bucket as one nested attribute, exactly if it fits, for any count of channels, negative ones included |
| ScanRequest.ScanCommand.PutBuckets | wifi_hal/gscan.cpp:466-524 | as many buckets as the count says; in the caller's array a band outside 0 to 7 has become 3, and everything else is as it was |
| ScanRequest.ScanCommand.CreateSetupRequest | wifi_hal/gscan.cpp:449-528 | succeeds exactly when there is memory and the message fits, and then it is the encoded tree of the caller's buckets; in the caller's array a band outside 0 to 7 has become 3, and nothing else has changed; when a list is closed unopened |
| ScanRoundTrip.ScanRequestRoundTrip | wifi_hal/gscan.cpp:449-528 | walking the message gives back vendor, subcommand and interface, base period, bucket count, and every bucket with all its fields and its channels in order, a band outside 0 to 7 replaced by 3 |
| ScanRoundTrip.TypesTellBucketsApart | wifi_hal/gscan.cpp:467-468 | types alone tell the fields from the buckets if and only if there are at most ten buckets |
| RttRequest.PutTarget | wifi_hal/rtt.cpp:352-437 | a target as one nested attribute of fourteen fields, exactly if it fits |
| RttRequest.CreateSetupRequest | wifi_hal/rtt.cpp:340-443 | succeeds exactly when there is memory and the message fits, and then it is the encoded tree; when an empty list is closed unopened |
| RttRequest.RttRequestRoundTrip | wifi_hal/rtt.cpp:340-443 | walking the message gives back vendor, subcommand and interface, and every target with all fields in order; its count is right exactly below 256 targets |
| ScanCache.GetScanResultsCommand.constructor | wifi_hal/gscan.cpp:824-828 | nothing retrieved, nothing completed |
| ScanCache.GetScanResultsCommand.HandleGroup | wifi_hal/gscan.cpp:922-966 | one group of attributes does to the caller's array what the fold over them says; slots beyond are left alone |
| ScanCache.GetScanResultsCommand.HandleResponse | wifi_hal/gscan.cpp:888-975 | a reply of another command or without data changes nothing; else the same for what its data is taken to hold, any bytes |
| ScanCache.UnwrappedInside | wifi_hal/gscan.cpp:906-916 | vendor data with a right length of its own is what follows its header |
| ScanCache.UnwrappingReadsBeyond | wifi_hal/gscan.cpp:906-916 | what it is taken to hold depends on memory behind it if and only if it is a single byte or its own length says more than there is |
| ScanCache.GetScanResultsCommand.Execute | wifi_hal/gscan.cpp:851-886 | result, cache, what each request asked for, and `*mNum`, written on success only and then `mRetrieved` |
| ScanCache.RepliesOnlyExtend | wifi_hal/gscan.cpp:916-972 | over any replies, filled slots stay as they are, no more than `mMax` are filled, and every count stored is bounded |
| ScanCache.StoredCount | wifi_hal/gscan.cpp:941-942 | the count stored is the least of the driver's, the attribute's and the slot's; negative exactly when the driver's was |
| ScanCache.CountsFall | wifi_hal/gscan.cpp:936-966 | result attributes behind one another in a group fill a slot each, with no more records than the count and than each before it, until one is empty or the array is full |
| ScanCache.RecordsAreSlices | wifi_hal/gscan.cpp:945-957 | each record copied is the stretch of bytes at its place |
| ScanCache.CopiesStayInside | wifi_hal/gscan.cpp:941-957 | only bytes of the attribute are copied if and only if the structure read is not larger than the one measured by |
| ScanCache.RequestsMakeProgress | wifi_hal/gscan.cpp:851-886 | every request asks for what is missing and for less than the one before, so at most ten and at most one per missing scan |
| ScanCache.RequestSentWhen | wifi_hal/gscan.cpp:851-886 | a request is sent if and only if it is one of the first ten, scans are missing, it can be built, and each before it succeeded, brought a scan and was not the last by the driver's word |
| ScanCache.ExecutionEnds | wifi_hal/gscan.cpp:851-886 | the cache holds what the replies to exactly those requests left; the result is the last exchange's failure, or that of building a request that was due, else success |
| ScanReply.ReplyRoundTrip | wifi_hal/gscan.cpp:906-972 | the scans of a reply that are not empty, nested in an attribute of any type from 30 to 36, field by field and record by record, end up in the cache in order, as far as asked for and as slots take them |
| ScanReply.KeptInFull | wifi_hal/gscan.cpp:941-942 | no record a slot has room for is lost if and only if they are worth it by the size they are measured by |
| Rtt.FindElements | wifi_hal/rtt.cpp:560-592 | the running count of bytes left does what the closed condition on positions says |
| Rtt.BuiltElementsFound | wifi_hal/rtt.cpp:560-592 | behind any record, in both orders, an LCI (type 8) and a civic (type 11) element built as id 38, length, token, mode, type and body are both found, the second unless at most a record's size of bytes begins there |
| Rtt.OneElementFound | wifi_hal/rtt.cpp:566-588 | an element followed by nothing of the other kind is found alone |
| Rtt.NoElementFound | wifi_hal/rtt.cpp:566-568 | what is no such element is not found |
| Rtt.ElementsAreApart | wifi_hal/rtt.cpp:566-588 | the two pointers never name the same element, each names its own kind inside the data, and the first follows the record |
| Rtt.SecondElementLost | wifi_hal/rtt.cpp:560-562 | the double subtraction loses a second element exactly when at most a record's size of bytes is left at its start |
| Rtt.DependsOnMemoryBeyond | wifi_hal/rtt.cpp:566-579 | the outcome depends on memory past the buffer exactly when one to four bytes that begin an element follow the record |
| Rtt.Heap.Malloc | wifi_hal/rtt.cpp:552-558 | a buffer under a name never used before, or none |
| Rtt.RttCommand.HandleResult | wifi_hal/rtt.cpp:550-605 | the result goes into the next slot and both counters advance, or the failure is noted, or the array is full; other buffers are left alone |
| Rtt.RttCommand.HandleEvent | wifi_hal/rtt.cpp:523-622 | a completed event reports exactly the results held, then frees each of their buffers and no other, with both counters zero; exactly when memory outside is touched |
| Rtt.RttCommand.FreeAll | wifi_hal/rtt.cpp:613-617 | every buffer of the command is freed once, every other one stays |
| Rtt.InnerClosed | wifi_hal/rtt.cpp:538-607 | what one target leaves, in closed form: the results up to the first failed allocation, the flag, the overrun |
| Rtt.EveryBufferReportedOnce | wifi_hal/rtt.cpp:523-622 | over any events and allocation failures, the results reported and then those held are those held before and then what the allocations made, in order |
| Rtt.MadeSpec | wifi_hal/rtt.cpp:552-559 | that is one result for each allocation that succeeds and for no other, under its own number, made from what it was asked for |
| Rtt.ReportsWhatWasSent | wifi_hal/rtt.cpp:523-622 | with memory for all: no overrun if and only if each event fits beside what is held by then, and then reports and held results are exactly what was sent, in order |
| Rtt.EventRoundTrip | wifi_hal/rtt.cpp:523-622 | an event as a driver builds it, target by target: with memory for all and room, its results join those held, in order, and all are reported exactly if its flag is not zero |
| Rtt.OverrunExactly | wifi_hal/rtt.cpp:550-552 | whatever allocations fail, a result is put past the array if and only if at some attribute those held and those asked for are more than 1024 |
| Rtt.EnoughRoom | wifi_hal/rtt.cpp:550-552 | whatever allocations fail, never while those held and those sent are at most 1024 |
| Rtt.RoomForEachEvent | wifi_hal/rtt.cpp:610-617 | the same over any number of events; a completed measurement gives its room back |
| Rtt.OuterTakesAll | wifi_hal/rtt.cpp:550-552 | with memory for all, a result is put past the array if and only if those held and those sent are more than 1024 |
| Rtt.CompletedByTheLast | wifi_hal/rtt.cpp:530-558 | an event leaves the measurement complete if and only if its last flag or failure is a failure or a flag other than zero; as it was without one |
| Rtt.FailureCompletes | wifi_hal/rtt.cpp:554-558 | without a completed flag in the event, it is complete if and only if it had been or an allocation failed |
| Rtt.FailureForgotten | wifi_hal/rtt.cpp:530-558 | a failure is forgotten if and only if the last flag or failure of the event is a flag of zero behind it |
| Rtt.FailureCanBeForgotten | wifi_hal/rtt.cpp:531-557 | an event in which that happens: the measurement goes on, a result short |
| SharedFreqs.GetSharedRadioFreqsData | wpa_supplicant_8_lib/mediatek_driver_cmd_nl80211.c:899-945 | the distinct frequencies in use, cut at `len`, with their flags, zeros behind, nothing past `len` written |
| SharedFreqs.Consider | wpa_supplicant_8_lib/mediatek_driver_cmd_nl80211.c:918-941 | one interface: its frequency is found or added and its flags set, or nothing changes |
| SharedFreqs.GetSharedRadioFreqs | wpa_supplicant_8_lib/mediatek_driver_cmd_nl80211.c:948-967 | the numbers as a plain array, or -1 and zeros without memory; each is the SSID's frequency of an access point or group owner, or the associated frequency of another interface with a known BSSID, and below `len` none is missing |
| SharedFreqs.SharedFreqsSpec | wpa_supplicant_8_lib/mediatek_driver_cmd_nl80211.c:899-945 | distinct; each from an interface with an SSID and an associated frequency, the SSID's frequency in AP and group-owner mode and the associated one otherwise; complete whenever fewer than `len` |
| SharedFreqs.DistinctSpec | wpa_supplicant_8_lib/mediatek_driver_cmd_nl80211.c:929-935 | de-duplication keeps the same values, none twice, in order of first occurrence |
| SharedFreqs.EntriesStep | wpa_supplicant_8_lib/mediatek_driver_cmd_nl80211.c:929-941 | the flags of a frequency are those of the last infrastructure interface looked at on it |
| SharedFreqs.FlagsSpec | wpa_supplicant_8_lib/mediatek_driver_cmd_nl80211.c:937-941 | the flags noted for a frequency: 2 for a P2P group and 1 otherwise, from the last station with a known BSSID associated on it, 0 if there is none |
| SharedFreqs.ProcessedSpec | wpa_supplicant_8_lib/mediatek_driver_cmd_nl80211.c:912-916 | the interfaces looked at are those before the first at which the array is full |
| SharedFreqs.ProcessedAll | wpa_supplicant_8_lib/mediatek_driver_cmd_nl80211.c:912-916 | the last interface is looked at exactly when those before it leave room |
| StaStats.Append | wpa_supplicant_8_lib/mediatek_driver_cmd_nl80211.c:529-532 | one print and its check: whole and terminated, or as much as fits |
| StaStats.PrintReserved | wpa_supplicant_8_lib/mediatek_driver_cmd_nl80211.c:634-646 | the reserved bytes, two digits each, a blank after every fourth |
| StaStats.DecimalReads | wpa_supplicant_8_lib/mediatek_driver_cmd_nl80211.c:534-550 | a number printed with %d can be read back |
| StaStats.PrintStaStatistics | wpa_supplicant_8_lib/mediatek_driver_cmd_nl80211.c:519-680 | the length of the report exactly if it fits with its terminator, else 0 with the buffer holding as much as fits; nothing past the buffer |
| StaStats.ReservedReads | wpa_supplicant_8_lib/mediatek_driver_cmd_nl80211.c:634-668 | each reserved byte can be read back from a fixed place in the text |
| StaStats.ReportReads | wpa_supplicant_8_lib/mediatek_driver_cmd_nl80211.c:519-680 | split at the line breaks, the report is twenty lines, each with its name and, read as a number, an address, four numbers, a word or bytes, the right field |
| StaStats.ReportIsLossless | wpa_supplicant_8_lib/mediatek_driver_cmd_nl80211.c:519-680 | statistics have the same report if and only if they agree in every field printed |
| HexDump.AppendFmt | wifi_hal/cpp_bindings.cpp:25-31 | the text is appended and terminated, the offset moves by its length |
| HexDump.LogLine | wifi_hal/cpp_bindings.cpp:486-512 | one line is the specified one and at most 65 characters, in a buffer of 81 |
| HexDump.Log | wifi_hal/cpp_bindings.cpp:486-512 | sixteen bytes a line, all of them |
| HexDump.LinesShow | wifi_hal/cpp_bindings.cpp:486-512 | every character: of line i, two hex digits in columns 3j and 3j+1 for byte 16i+j, a dash in column 23, the byte itself or a dash in column 49+j, blanks elsewhere; as many lines as needed |
| HexDump.DumpIsLossless | wifi_hal/cpp_bindings.cpp:486-512 | the hex columns of all lines give back the payload |
| HexDump.DumpIsInjective | wifi_hal/cpp_bindings.cpp:486-512 | payloads with the same dump are the same |
| ColorFormat.RoundTrip | include/ddp_data_type.h:13-34 | the getters give back the fields if and only if all fields are in range |
| ColorFormat.PackIsWeightedSum | include/ddp_data_type.h:13-22 | the word is the sum of the fields by their weights |
| ColorFormat.Repack | include/ddp_data_type.h:13-34 | the fields of a word pack to that word if and only if its three top bits are clear |
| ColorFormat.PackIsInjective | include/ddp_data_type.h:13-22 | formats with fields in range share a word only if they are the same |
| ColorFormat.SharedBits | include/ddp_data_type.h:24-34 | the interlaced flag is the high bit of the block mode; hardware format and unique id are one field |

## Left out

- Sockets, poll, libnl's own sending and receiving, ioctl, sysfs, properties: arbitrary inputs here.
- Liveness: that `Condition::wait` and the loop in `requestResponse` ever return.
- Reclamation of a command whose start failed: it is unregistered without a release, so it stays; `Lifetime` proves safety and conservation, not that everything is freed.
- `SetLogHandler::cancel` can return before it unregisters; the logger's commands are not in `StartCancel`.
- `parseScanResults`, `wifi_handle_full_scan_event` and the passpoint payloads rest on structures that are not part of this model.
- `wpa_driver_nl80211_driver_cmd` and `priv_p2p_freq_to_channel`: switches whose branches are settled by reading them.
- Camera, sysram, cmdq, JPEG, audio and sensor headers, lights, power and init.
- The message headers of netlink and generic netlink in front of the attributes; the flag bits of an attribute type.
- ScanRequest.ScanCommand.CreateSetupRequest: counts larger than the arrays, past whose ends the code would read, are not modelled; a message is shorter than 65536 bytes, as libnl's default is.
- The RTT tear-down message.
- The other set-up messages (second scan message, hotlist, ePNO, significant change): built from the same helpers, they would only add members like those here.
- ScanCache.GetScanResultsCommand.Execute: the request it builds is reduced to whether it could be built; what `convert_to_hal_result` makes of a record is left as the record's bytes.
- Rtt.RttCommand.HandleEvent: after a fault (no vendor data, or a result past the array) nothing is promised; the callback is taken to leave the buffers alone; the unregistering and release at the end are in `Lifetime`. The addresses and counts it only logs are left out.
- StaStats.PrintStaStatistics: the rate, a floating-point number, is given as the text `%.1f` makes of it; the extra arguments of the separator prints are left out, since nothing prints them.
- HexDump.Log: only the dump; the list of attributes logged after it and the name tables are left out.
- Lifetime.NoUseAfterDelete: a start that fails and a start that succeeds are both covered, logger commands and commands that no table ever holds are not.
