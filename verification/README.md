# HIDShift bridge core: a verified model

HIDShift sits between USB keyboards and mice and several computers. This project models
its `no_std` bridge core in Dafny and proves what it promises about stored state, routed
input, pairing, movement and the wired handshake. `dafny verify dfyconfig.toml` checks
everything; nothing is assumed beyond the hypotheses named here.

Modules, bottom up:

- `Options`, `Clock`, `ByteBuffers`: optional values, the saturating clock, filling a buffer.
- `Bits`, `Checksum`, `ChecksumDivision`: fixed-width numbers as bytes and bits; CRC-32 and
  CRC-16 as shift registers over bit lists, with burst detection proved from the register's
  algebra; both as remainders of long division by the standard generators.
- `InputProfiles`, `ProfileRecency`, `InputShortcut`: the bounded profile registry, its
  refinement by a plain recency list, and the switch shortcut.
- `StorageImage`, `StorageCodec`, `StorageBuffers`, `StorageRoundTrip`, `StorageCorruption`,
  `StorageRestart`, `StorageLayout`: the 1024-byte image as bytes, its decoder, the in-place
  encoder and the decoding loops, the round trip, the rejection of damage, the profiles that a
  boot finds, and the offset of every field.
- `Journal`, `JournalSafety`, `JournalRuns`, `StorageRecords`, `PersistScheduler`: the two-sector
  journal under power cuts and failures, its runs from a blank flash, its link to the image
  bytes, and the debounce and retry scheduler.
- `HostState`, `HostHistory`, `HostLinks`, `HostMachine`: the BLE host table, readiness, links and
  bonds as functions of history, the restart, and the table as an object.
- `Keyboard`, `Bridge`, `BridgeInput`, `BridgeHiding`, `BridgeKeys`, `BridgeKeyboard`,
  `BridgeActions`, `BridgeMachine`: the routing state machine of the standard build, no stuck
  input, suppression, key capacity and the keys shown, action counts and pairing actions, and the
  bridge as an object.
- `BridgeMovement`, `BridgeTargets`, `BridgeNotices`, `BridgeLeds`, `BridgeReasons`: what the
  bridge promises beside that: pointer movement, who gets the input, statuses and persistence,
  keyboard lights, and which reports may be dropped.
- `Runtime`, `RuntimePairing`, `RuntimeSafety`, `RuntimeCommands`, `RuntimeViews`,
  `RuntimeOwner`, `RuntimeMachine`: pairing windows, delayed switches, refusals, command counts,
  no stuck input told by commands, the same on the firmware's own path, and the runtime as an
  object.
- `RuntimeMovement`, `RuntimeTimers`, `RuntimeBus`, `RuntimeSinks`, `RuntimeManagement`: movement
  from the frame to the radio, delays and windows, the button and the boot target, the power of
  the USB bus, lights and interfaces, and management requests.
- `WiredPresentation`, `WiredSafety`, `WiredExact`, `WiredDelivery`, `WiredMachine`: the
  presentation handshake of the `dual-s3-wired` build, safe and live.
- `MouseScaling`, `MouseAccumulator`, `MouseSink`: scaling with remainders, coalescing,
  ordered draining and put-back.
- `BleConnection`, `MirrorPacket`: pairing backoff and connection slots under a peer match
  that is not transitive; the 64-byte test packet and its reassembly.

Code that updates state in place is modelled by classes and methods proved against functions
on values; the run-level theorems are about those functions.

## What the code does not do

Eight properties that the design suggests turn out to be false of the code. Each has a
concrete counterexample and the exact condition under which the property holds.

- **An acknowledged save can be forgotten.** Within a session the writer steps past a record
  that failed (src/storage.rs:952-964), but the boot scan stops at the first record that does
  not decode (src/storage.rs:1003-1009); an untouched record after a failed write stops it
  too. From a blank flash, `JournalRuns.RetryAfterFailureIsLost` loses the last save,
  `JournalRuns.RetryCanLoseEverything` all of them; `JournalSafety.AcknowledgedIsRestoredIff` is
  the condition. While no write fails nothing is lost: `JournalRuns.StrictAtomicity`.
- **Suspended retrying can still write.** Staging the same generation again sets a deadline
  and keeps the suspension, which the attempt does not look at (src/storage.rs:353-376,
  src/storage.rs:399-423). `PersistScheduler.SuspendedCanWrite` is a run,
  `PersistScheduler.DormantRunIff` the condition.
- **A pairing window can outlive every tick.** A due delayed switch that cannot be persisted
  makes the whole tick fail (src/runtime.rs:1358-1387, src/runtime.rs:1343-1356), and a failed
  input is rolled back (src/runtime.rs:560-571). `RuntimeSafety.WindowCanOutliveTicks` is a
  run, `RuntimeSafety.TickClosesWindow` the condition. For the same reason a disconnect with a
  fallback is rolled back while storage cannot be written: `RuntimeSafety.DisconnectRefused`.
- **A shortcut frame loses its own reports.** In the standard build `request_target_switch`
  clears the commands of the frame that completed the shortcut (src/runtime.rs:1390-1398), so a
  button released in that frame stays down on the computer until the next report, and the
  frame's movement is lost (`RuntimeMovement.MovementIsAccounted` says how much).
  `RuntimeViews.ShortcutSticksButton` is a run from power-up, `RuntimeViews.ShortcutFrameIff`
  the condition, and `RuntimeViews.NoStuckInputIff` carries it over whole runs.
- **A refused switch is not undone on the firmware's path.** A frame that fails there has only
  its outboxes cleared (src/runtime/owner.rs:112-143), although the firmware takes frames to be
  transactional (firmware/src/main.rs:728-731). When a shortcut's switch cannot be persisted,
  the target has changed, the releases to the old computer are lost, and what it was shown stays
  down. `RuntimeOwner.RefusedSwitchSticksButton` is a run from power-up,
  `RuntimeOwner.NoStuckInputInPlaceIff` the condition over whole runs.
- **A presentation can be confirmed that was not requested.** The runtime compares the USB
  state with the registry, not with its last request; an input that changes or removes the
  entry it waits for without a new request lets the two come apart (src/runtime.rs:833-898,
  src/mirror/candidate.rs:87-102). `WiredExact.AmbiguityLosesRequest` and
  `WiredExact.ClearingLosesRequest` are runs, `WiredExact.HandshakeIsExactIff` the condition.
- **A failed pairing can block longer than it says.** The peer match is not transitive, so a
  second entry can match the peer and outlast the returned time
  (src/ble_connection.rs:202-253). `BleConnection.OtherMatchOutlasts` is a run,
  `BleConnection.BlockedExactlyIff` the condition.
- **The restored use counter lies above all stored ones** only if none of them is the largest
  64-bit number: `StorageRoundTrip.CounterCanWrap`, `StorageRoundTrip.NextAboveAllSeen`.

Smaller disagreements: a shortcut stored with key 0 loses its modifiers on the way through
flash; a tick never needs the seventeenth command slot, because the bus changes state only when
no computer is connected and then nothing is released (`RuntimeCommands.TickNeedsSixteen`);
forgetting a computer that has no entry ends its pairing without a status
(`BridgeNotices.StatusIsTrue`); when the active computer goes away, the search for the next one
starts at the top of the table, not after it (`BridgeTargets.DisconnectPicks`); a
raw EnterPairingMode event without an open window gets the absolute deadline 60000 ms
(src/runtime.rs:1473-1484).

## Hypotheses

- Flash: a write that is cut short or fails leaves its record as it was, undecodable or
  complete; a sector erase happens completely or not at all. Acknowledged saves have a newer
  generation than the one before (src/storage.rs:1281-1283; the order of section 3.2 of RFC
  1982). The strict form of crash atomicity (`JournalRuns.StrictAtomicity`) is about runs in
  which no write fails, and asks nothing else; the form with failures and retries
  (`JournalSafety.CrashAtomicity`) covers the acknowledged saves that go to a place where boot
  finds them, which is the exact condition above.
- The aggregated physical input is an arbitrary value that comes with each frame, removal or
  reset; its key list names no key twice and holds at most 32.
- A computer forgets a report kind when it stops taking it; that is when the model resets what
  the computer was told.
- In the wired build, which BLE computers are connected and ready, and the fallback target, are
  arbitrary values that come with the inputs.
- Mouse buttons and modifiers are sets of bit numbers; clocks saturate at 2^64 - 1 where the
  code saturates.

## Model

| member | source | states |
|---|---|---|
| Checksum.FoldIsFeed | src/checksum.rs:32-40 | Feeding bytes one after the other, eight shifts each, equals feeding the message bit by bit. |
| Checksum.StepInjective | src/checksum.rs:32-40 | One shift of the register is injective: no two states meet. |
| Checksum.BurstDetected | src/checksum.rs:16-45 | Two messages that differ in a window no longer than the register end in different states, whatever follows. |
| Checksum.Crc32SeesBurst | src/checksum.rs:16-25 | CRC-32 differs for any two messages that differ only in a window of up to four bytes. |
| Checksum.Crc16SeesBurst | src/checksum.rs:1-14 | CRC-16 differs for any two messages that differ only in a window of up to two bytes. |
| Checksum.Crc32.Update | src/checksum.rs:32-40 | The in-place loops compute the fold over the new bytes. |
| Checksum.ComputeCrc32Ieee | src/checksum.rs:16-25 | Computes CRC-32 of the bytes. |
| Checksum.ComputeCrc16CcittFalse | src/checksum.rs:1-14 | Computes CRC-16 of the bytes. |
| Checksum.Crc32WithoutHeader | src/storage.rs:1232-1245 | The loop that skips bytes 12 to 15 computes CRC-32 of the two parts around them. |
| ChecksumDivision.FeedDivides | src/checksum.rs:32-40 | Feeding a register is schoolbook long division of the message: it ends with the remainder. |
| ChecksumDivision.TapsAreGenerator32 | src/checksum.rs:32-40 | The taps 0xedb88320 are the generator x^32 + x^26 + ... + 1. |
| ChecksumDivision.Crc32IsRemainder | src/checksum.rs:16-25 | CRC-32 is the inverted remainder of the message, with its first 32 bits inverted, divided by the generator of RFC 1952. |
| ChecksumDivision.Crc16IsRemainder | src/checksum.rs:1-14 | CRC-16 is the remainder of the message, with its first 16 bits inverted, divided by x^16 + x^12 + x^5 + 1. |
| InputProfiles.FreeIdExists | src/domain/input_profile.rs:302-344 | A registry that is not full has a free number from 1 to 8 (pigeonhole). |
| InputProfiles.InputProfileRegistry.Observe | src/domain/input_profile.rs:302-344 | A known identity is touched; an unknown one takes a free number or the least recently used idle profile's; otherwise it fails and only the use counter moves. |
| InputProfiles.InputProfileRegistry.Disconnect | src/domain/input_profile.rs:346-353 | Marks exactly the named profile idle with a new use number and a fresh transform state; an unknown number fails and only the counter moves. |
| InputProfiles.InputProfileRegistry.Restore | src/domain/input_profile.rs:285-300 | Adds a stored profile and lifts the counter; a duplicate fails unchanged, a full table fails with the counter lifted. |
| ProfileRecency.RunIsRecencyRun | src/domain/input_profile.rs:302-368 | Every run of the registry from empty, below counter wrap, is a run of a plain recency list; numbers and identities stay distinct. |
| ProfileRecency.LeastRecentIsFirstIdle | src/domain/input_profile.rs:319-337 | The evicted profile is the first idle one of the recency list: the one touched longest ago. |
| ProfileRecency.ObserveFailsExactly | src/domain/input_profile.rs:302-344 | Observing fails exactly when an unknown identity meets a full table whose profiles are all connected. |
| InputShortcut.LookAheadIsExact | src/domain/input_profile.rs:222-231 | The check that decides the fast path says exactly what capturing would do. |
| InputShortcut.HeldShortcutIsHidden | src/domain/input_profile.rs:187-220 | While the shortcut is not armed no part of it is left in the frame, and all other keys are. |
| InputShortcut.TriggersOncePerCycle | src/domain/input_profile.rs:185-220 | Between two triggers some frame has every part of the shortcut up. |
| InputShortcut.TriggersExactly | src/domain/input_profile.rs:185-220 | The shortcut fires exactly at those frames in which exactly it is down and all its parts were up since every earlier time that it fired. |
| InputShortcut.ShortcutCapture.CaptureFrame | src/domain/input_profile.rs:187-220 | The in-place capture computes the trigger, the armed flag and the filtered frame. |
| StorageImage.ComputeValidate | src/storage.rs:154-176 | Validation finds the first host that is out of range or a duplicate, then a missing active host. |
| StorageCodec.BondRoundTrip | src/storage.rs:1165-1220 | Every bond survives its 48-byte record. |
| StorageCodec.HostRoundTrip | src/storage.rs:1026-1163 | Every host survives its 88-byte record. |
| StorageCodec.ProfileRoundTrip | src/storage.rs:1108-1140 | A profile record decodes exactly when its settings are in range, and then to its durable projection, which is at rest (`StorageRestart.DecodedIsAtRest`). |
| StorageRoundTrip.ImageIsLaid | src/storage.rs:534-568 | Header, checksum and body lie at their offsets in the image. |
| StorageRoundTrip.RecordsAreLaid | src/storage.rs:534-568 | Every profile lies in its own 36-byte row and every host in its own 88-byte row of the image. |
| StorageRoundTrip.DecodeOfEncode | src/storage.rs:534-640 | For every valid state decoding the image succeeds exactly when the settings are in range, and gives exactly the durable projection. |
| StorageRoundTrip.NextAboveAllSeen | src/domain/input_profile.rs:285-300 | The restored counter is above every stored use number exactly when none of them is 2^64 - 1. |
| StorageRoundTrip.CounterCanWrap | src/domain/input_profile.rs:285-300 | A profile with that use number wraps the restored counter below it. |
| StorageCorruption.SingleByteRejected | src/storage.rs:570-640 | Changing any one byte among the first 16 + body_len bytes of an accepted image makes decoding fail. |
| StorageCorruption.BurstRejected | src/storage.rs:570-640 | Changing anything within four consecutive bytes of the generation or of the body makes decoding fail. |
| StorageCorruption.TailIgnored | src/storage.rs:570-640 | Changing any later byte leaves the decoded state the same. |
| StorageCorruption.DecodeFromPrefix | src/storage.rs:570-640 | Two images that agree on the accepted length decode alike. |
| StorageRestart.DecodedIsAtRest | src/domain/input_profile.rs:116-131 | Whatever bytes a decoded image was made of, every profile is disconnected, armed and without remainders, and numbers and identities are distinct. |
| StorageRestart.FirstDeviceIsTakenIn | src/domain/input_profile.rs:302-344 | After every decode the first device, whichever it is, is taken in: under its old number, or in the least recently used place when the table is full. |
| StorageRestart.GoneIsAtRest | src/domain/input_profile.rs:346-353 | A device that goes leaves its profile at rest with its settings. |
| StorageRestart.NewIsAsDelivered | src/domain/input_profile.rs:302-344 | A new profile is connected, has 100 percent, no shortcut and no remainders. |
| StorageRestart.DecodedIsInLimits | src/storage.rs:570-640 | Whatever bytes a decoded image was made of, settings and profiles are in their ranges and the hosts are valid. |
| StorageLayout.HeadOfImage | src/storage.rs:534-568 | Magic, version, body length, generation and checksum at their byte offsets, little-endian. |
| StorageLayout.ScalarsOfImage | src/storage.rs:534-568 | Host count, active host, settings and profile count at their byte offsets. |
| StorageLayout.ProfilesOfImage | src/storage.rs:551-557 | Profile i lies at byte 64 + 36 i. |
| StorageLayout.HostsOfImage | src/storage.rs:559-562 | Host i lies at byte 368 + 88 i. |
| StorageLayout.GlobalFields | src/storage.rs:1040-1076 | Every global setting at its offset. |
| StorageLayout.SettingsFields | src/storage.rs:1078-1087 | Every input setting at its offset. |
| StorageLayout.ProfileFields | src/storage.rs:1108-1120 | Every field of a profile at its offset. |
| StorageLayout.HostFields | src/storage.rs:1026-1038 | Every field of a host at its offset. |
| StorageLayout.BondFields | src/storage.rs:1165-1181 | Every field of a bond at its offset. |
| StorageBuffers.EncodeStorageImage | src/storage.rs:534-568 | Filling the buffer in place yields the image, or the validation error. |
| StorageBuffers.DecodeStorageImage | src/storage.rs:570-640 | The decoding loops compute the decoded state or the first error. |
| StorageRecords.ImageIsErased | src/storage.rs:1015-1024 | Finds out whether every byte is 0xff. |
| StorageRecords.EncodedRecord | src/storage.rs:978-1013 | The image of a state in range is a valid record of its durable projection; with settings out of range it is a bad record. |
| StorageRecords.ValidMeansDecodable | src/storage.rs:978-1013 | A record counts as valid exactly when its bytes decode. |
| StorageRecords.DamagedRecordIsBad | src/storage.rs:1003-1009 | One changed byte among the covered ones makes a valid record a bad one, never an erased or another valid one. |
| Journal.ScanFlashSlot | src/storage.rs:978-1013 | The boot scan returns the last of the leading valid records and the next free index. |
| Journal.NewerIsOneWay | src/storage.rs:1281-1283 | If one generation is newer than another, the other is neither newer nor equal. |
| Journal.NewerIsLater | src/storage.rs:1281-1283 | A generation is newer than another exactly if it is reached from it in fewer than 2^31 steps, past the wrap or not. |
| Journal.LaterIsSelected | src/storage.rs:714-756 | Of two states the one with the later generation is selected, whichever slot it is in. |
| Journal.NorFlashBackend.Write | src/storage.rs:936-968 | Erases a full sector, writes the next record, verifies it, and takes it into the cache only on success; the index moves on except after a failed erase. |
| Journal.NorFlashBackend.PersistState | src/storage.rs:758-787 | Writes the slot that does not hold the newest state. |
| JournalSafety.AcknowledgedIsRestoredIff | src/storage.rs:952-1009 | Boot restores an acknowledged save that is newer than every valid record exactly when all records before it in its sector are valid and the next one is not. |
| JournalRuns.RetryAfterFailureIsLost | src/storage.rs:952-1009 | From a blank flash: a save, a failed write, and its acknowledged retry, which boot forgets. |
| JournalRuns.RetryCanLoseEverything | src/storage.rs:936-1009 | After three more failed writes, losing power in the next erase leaves boot with no state at all. |
| JournalSafety.FailedSaveKeepsNewest | src/storage.rs:758-787 | A save that fails leaves the restored state and the newest slot's records unchanged. |
| JournalSafety.CrashAtomicity | src/storage.rs:758-1013 | With failures: over every run of saves, failed attempts and retries, power cuts at any point and restarts, in which a save is acknowledged only where boot finds it, boot restores the last acknowledged state or one tried since, or left behind a hole by an earlier failure. |
| JournalSafety.CutAfterRun | src/storage.rs:936-968 | Losing power anywhere inside one more save, whatever failed before it, leaves boot with the acknowledged state, the one in flight, or one tried in between. |
| JournalSafety.BlankIsSafe | src/storage.rs:883-909 | A blank flash is a state to start such runs from. |
| JournalRuns.StrictAtomicity | src/storage.rs:758-1013 | Over every run of acknowledged newer saves, power cuts and restarts, the device has what boot would find, and that is the last acknowledged state or one that was in flight in a cut since. Nothing is asked about where a save goes. |
| JournalRuns.BlankRunIsStrict | src/storage.rs:758-1013 | The same from a blank flash; losing power anywhere inside one more save leaves boot with the saved state or the one in flight, and nothing else. |
| JournalRuns.LastRisingIsFound | src/storage.rs:758-1013 | From a blank flash, of saves whose generations rise by one or more, past the wrap or not, boot finds the last. |
| JournalRuns.LastNumberedIsFound | src/runtime.rs:1343-1356 | In particular of saves numbered g, g + 1, g + 2 and so on. |
| JournalRuns.CountedIsSmooth | src/runtime.rs:1343-1356 | A run of saves, cuts and restarts in which each save counts on from the state that the device has is one that strict crash atomicity is about. |
| JournalRuns.AcknowledgedIsNeat | src/storage.rs:758-787 | In such a run an acknowledged save becomes the saved state, and the next record goes right behind it. |
| JournalRuns.CutIsStrict | src/storage.rs:936-968 | In such a run a cut leaves the acknowledged state or the one in flight, and no trace of another. |
| JournalRuns.SmoothIsPermitted | src/storage.rs:936-968 | In such a run every save goes to a place where boot finds it. |
| JournalRuns.TidyLeavesNothing | src/storage.rs:978-1013 | A sector with at most one spoilt place after its valid records has nothing left behind a hole. |
| PersistScheduler.RunIsConsistent | src/storage.rs:353-494 | In every run snapshot, urgency, deadline and failure count stay consistent. |
| PersistScheduler.LastStagedIsPending | src/storage.rs:353-388 | Until a write succeeds the pending snapshot is the last one staged, and urgency does not drop below what a stage or a quiesce snapshot of a new generation asked for. |
| PersistScheduler.OnlyUrgentStagePostpones | src/storage.rs:353-376 | A stage of lower priority never moves the deadline to a later time. |
| PersistScheduler.StageBoundsDeadline | src/storage.rs:353-376 | After every stage the snapshot is due within the wait of the more urgent of old and new; a stage at least as urgent restarts that wait exactly. |
| PersistScheduler.CriticalIsDueAtOnce | src/storage.rs:353-388 | A critical stage is due at once, whatever deadline there was. |
| PersistScheduler.RetrySpacing | src/storage.rs:462-474 | Failing attempts without a new stage are 1, 2, 4, 8 and 16 s apart, and the sixth suspends. |
| PersistScheduler.SuspendedAsksNothing | src/storage.rs:498-531 | While retrying is suspended the task policy asks for nothing. |
| PersistScheduler.AttemptActsIff | src/storage.rs:399-423 | A scheduled attempt does something exactly when it is due, suspended or not. |
| PersistScheduler.DormantRunIff | src/storage.rs:353-423 | Over every run after a suspension it lasts and no attempt acts, exactly as long as nothing is staged again and no flush succeeds. |
| PersistScheduler.SuspendedCanWrite | src/storage.rs:353-423 | A run of six failures after which staging the same generation leaves retrying suspended and the next attempt writes. |
| PersistScheduler.CriticalIsForced | src/storage.rs:498-531 | A critical snapshot without a later critical stage or failure gets QuiesceAndPersist from deadline plus the force limit on, whatever BLE does. |
| PersistScheduler.CriticalStageIsForced | src/storage.rs:353-531 | Counted from the moment of the critical stage: from then plus the force limit on the task is told to write, whatever BLE does. |
| PersistScheduler.EvaluateIsExact | src/storage.rs:498-531 | The task is woken exactly when the snapshot becomes due; while no computer is connected every due snapshot is written, else only an overdue critical one. |
| PersistScheduler.StoragePersistence.StageState | src/storage.rs:353-376 | Staging in place computes the new schedule. |
| PersistScheduler.StoragePersistence.StageQuiesce | src/storage.rs:378-388 | A quiesce snapshot of the same generation replaces the pending one, another is staged as critical. |
| PersistScheduler.StoragePersistence.PersistIfDue | src/storage.rs:399-423 | A due attempt clears the schedule on success and counts the failure otherwise. |
| HostState.UpsertFits | src/bridge/host_state.rs:251-271 | Four slots always have room for a host number from 1 to 4; other entries keep their place. |
| HostState.TouchChanges | src/bridge/host_state.rs:39-98 | A host event fails only for an invalid number, and changes that host's entry alone. |
| HostHistory.SessionIsStored | src/bridge/host_state.rs:55-89 | In every run session readiness implies stored readiness, for every host and kind. |
| HostHistory.ReadyIsHistory | src/bridge/host_state.rs:39-134 | A kind is ready exactly when a subscription, or an encrypted link to a bonded connected host with the stored choice, enabled it and no connect, disconnect, encryption loss, unsubscription, forget or restore came after. |
| HostHistory.SendIsHistory | src/bridge/host_state.rs:301-303 | A kind can be sent exactly when the host is connected and encrypted and its history has the kind enabled and not revoked. |
| HostLinks.LinkIsHistory | src/bridge/host_state.rs:39-134 | Over every run connection, encryption, lights and discovered name are what the last events said since the computer was forgotten or the table restored. |
| HostLinks.BondStays | src/bridge/host_state.rs:55-77 | A bond stays until it is replaced, forgotten or restored, and a computer with a bond counts as bonded after every security event. |
| HostHistory.RestoreKeeps | src/bridge/host_state.rs:111-156 | Restoring the stored hosts keeps every bond, stored choice and name and the known active target, and nothing of link or session. |
| HostHistory.HostsSurviveRestart | src/storage.rs:534-640 | The same through encoding the image and decoding it again. |
| HostMachine.NextIsNearest | src/bridge/host_state.rs:208-232 | The next target is the candidate met first when going round the table from the current one; there is none exactly when no host is a candidate. |
| HostMachine.PairingCandidate | src/bridge/host_state.rs:234-249 | The candidate has no bond; there is none only if every host has one. |
| HostMachine.PairingPrefersActive | src/bridge/host_state.rs:234-249 | The active computer if it is known and has no bond, else the lowest number without one. |
| HostMachine.BleHostStateMachine.UpsertHost | src/bridge/host_state.rs:251-271 | Finds or makes the entry in place. |
| HostMachine.BleHostStateMachine.OnChange | src/bridge/host_state.rs:39-98 | Applies a host event in place and tells whether it must be persisted. |
| HostMachine.BleHostStateMachine.SetActiveTarget | src/bridge/host_state.rs:28-33 | Makes a host active, with an entry if it had none, and tells whether that changed anything. |
| HostMachine.BleHostStateMachine.ClearHost | src/bridge/host_state.rs:100-109 | Removes the entry and the active target if it was that host. |
| HostMachine.BleHostStateMachine.RestoreFrom | src/bridge/host_state.rs:111-134 | The restore loop, which stops at an invalid number. |
| HostMachine.BleHostStateMachine.NextTargetAfter | src/bridge/host_state.rs:208-232 | The scan with two flags computes the next target. |
| HostMachine.BleHostStateMachine.FindPairingCandidate | src/bridge/host_state.rs:234-249 | The scan computes the pairing candidate. |
| Keyboard.SnapshotFits | src/input/keyboard.rs:113-138 | Taking over a snapshot needs exactly as much room as the snapshot, so 32 keys never overflow. |
| Keyboard.HideAfterFits | src/input/keyboard.rs:248-267 | After the pass at most the limit of keys is visible. |
| Keyboard.HideAfterIsExact | src/input/keyboard.rs:246-267 | The pass leaves exactly the first six unhidden keys visible, and hides none without need. |
| Keyboard.SnapshotKeepsOrder | src/input/keyboard.rs:113-138 | Keys that stay down come first and keep their order. |
| BridgeKeys.KeysAlwaysFit | src/input/keyboard.rs:229-267 | In every run held and hidden keys fit their 32 places, so no event fails for want of room for a key. |
| Keyboard.ApplySnapshot | src/input/keyboard.rs:113-138 | The in-place loops keep press order, add new keys at the end, and keep hidden only what is down. |
| Keyboard.SuppressVisibleAfter | src/input/keyboard.rs:248-267 | The pass hides every key after the first six visible ones and returns how many it hid. |
| BridgeInput.NoStuckInput | src/bridge/mod.rs:53-769 | In every run, of all events, quiesce steps and restores, no computer but the active one was left believing that anything is held, and the active one believes only what is held. |
| BridgeInput.TransitionClean | src/bridge/mod.rs:493-518 | A real target change leaves what every computer was told neutral. |
| BridgeInput.DisconnectedClean | src/bridge/mod.rs:101-127 | The fallback after a disconnect needs no release reports. |
| BridgeInput.ClearedClean | src/bridge/mod.rs:533-561 | Forgetting the active computer releases it first. |
| BridgeInput.DetachedClean | src/bridge/mod.rs:563-730 | After a removal or reset the active computer believes only what is still held. |
| BridgeHiding.OnlyVisibleShown | src/bridge/mod.rs:225-376 | In every run after boot without a quiesce capture, a computer is shown only what is held and not hidden. |
| BridgeHiding.HiddenIsHeld | src/bridge/mod.rs:57-65 | In every run after boot, quiesce captures included, only held input is hidden while a computer is active. |
| BridgeHiding.DetachViewApart | src/bridge/mod.rs:704-727 | The consumer report on a removal, which ignores what is hidden, shows nothing hidden. |
| BridgeHiding.SwitchCaptures | src/bridge/mod.rs:507-513 | Whatever event makes a new computer active, everything held is hidden from it. |
| BridgeHiding.HeldStaysHidden | src/bridge/mod.rs:281-376 | While the target stays, hidden buttons and modifiers are exactly those held in every aggregate since the capture; a hidden usage stays until it first changes. |
| BridgeHiding.FrameShows | src/bridge/mod.rs:225-376 | A frame tells a ready active computer exactly what is held and not hidden, for each kind in it, and no keyboard report is cut off. |
| BridgeHiding.SwitchedReport | src/bridge/mod.rs:281-376 | After a switch with buttons H and aggregates b1..bn the report shows exactly bn without the buttons in H and all of b1..bn; a held usage is hidden until its first change. |
| BridgeHiding.QuiesceHides | src/bridge/mod.rs:57-65 | The same suppression from the capture before links go down on purpose. |
| BridgeKeyboard.HiddenKeysIsExact | src/bridge/mod.rs:239-262 | Hidden after a frame is exactly what is down and not among the first six unhidden keys. |
| BridgeKeyboard.FrameShowsFirstSix | src/bridge/mod.rs:225-376 | A frame shows exactly the first six unhidden keys in press order, and the modifiers not hidden. |
| BridgeKeyboard.WindowIsStable | src/input/keyboard.rs:246-267 | A visible key stays visible and a hidden one hidden while it is held. |
| BridgeKeyboard.HeldKeysStayHidden | src/bridge/mod.rs:225-262 | Since the capture, while no more than six keys are down, exactly the keys held all the time are hidden. |
| BridgeKeyboard.SwitchedKeys | src/bridge/mod.rs:225-262 | After a switch, while no more than six keys are down, the report shows exactly the keys and modifiers not held all the time since. |
| BridgeKeyboard.RemovalShows | src/bridge/mod.rs:649-730 | A removal tells of every kind that changed exactly what is still held and was not hidden. |
| BridgeMovement.StepMoves | src/bridge/mod.rs:272-315 | One event moves the pointer of each host exactly as a frame for the active, ready host asks. |
| BridgeMovement.MovementIsRouted | src/bridge/mod.rs:225-376 | Over every run and in every direction, the reports to a host add up to the frames that came while it was active and took mouse reports; releases add nothing. |
| BridgeTargets.DisconnectPicks | src/bridge/mod.rs:101-127 | When the active computer, taking keyboard reports, goes away, the first one in the table that takes them gets the input; if there is none, or another computer goes, nothing is switched. |
| BridgeTargets.OthersKeepTarget | src/bridge/mod.rs:88-209 | Every other event keeps the target, but for a switch to a valid number and forgetting the active entry. |
| BridgeNotices.StatusIsTrue | src/bridge/mod.rs:808-820 | Every status shows active and pairable host after the event, and a new target or pairable host is told. |
| BridgeNotices.TargetIsAnnounced | src/bridge/mod.rs:493-518 | Input is announced for a computer exactly when it becomes the active one. |
| BridgeNotices.BondIsErased | src/bridge/mod.rs:533-561 | Forgetting an entry hands over its bond, and nothing else does. |
| BridgeNotices.ChangePersistsIff | src/bridge/host_state.rs:39-98 | A host event asks for persistence exactly when it alters what storage keeps of the host. |
| BridgeNotices.StepPersists | src/bridge/mod.rs:88-209 | An event that alters anything durable asks for persistence, and none asks for nothing but forgetting an entry. |
| BridgeNotices.NothingIsForgotten | src/bridge/mod.rs:88-209 | Over every run what was last persisted agrees with the present in everything that outlives a restart. |
| BridgeLeds.LightsFollowTarget | src/bridge/mod.rs:607-647 | Over every run after boot every keyboard that shows lights shows those of the active computer, or none. |
| BridgeReasons.KeyboardReason | src/bridge/mod.rs:255-270 | A keyboard report is a release exactly when a key or modifier went up. |
| BridgeReasons.MouseReason | src/bridge/mod.rs:281-307 | A mouse report is an edge exactly when the buttons changed. |
| BridgeReasons.ConsumerReason | src/bridge/mod.rs:317-348 | A consumer report is a release exactly when the usage ended. |
| BridgeReasons.PlainTakesNothing | src/runtime/command.rs:125-136 | Over every run after boot without a quiesce capture, a report of the one class that may be dropped takes nothing away from a computer. |
| BridgeActions.ActionsNeeded | src/bridge/mod.rs:493-647 | How many actions each event can need. |
| BridgeActions.ActionsFit | src/runtime.rs:49-54 | No event of any run needs the sixteenth action slot. |
| BridgeActions.StepPairs | src/bridge/mod.rs:128-148 | The Allow and Reject actions of one event move the open windows exactly as the state does. |
| BridgeActions.PairingFollows | src/bridge/mod.rs:478-561 | Over every run without a restore the hosts that the actions leave allowed are exactly the pairable host, so at most one. |
| BridgeMachine.BridgeCore.HandleEvent | src/bridge/mod.rs:75-86 | An event changes state and actions as specified; a failing one leaves no trace. |
| BridgeMachine.BridgeCore.HandleInPlace | src/bridge/mod.rs:88-209 | The in-place handlers compute the new state and actions and never overflow the action vector. |
| BridgeMachine.BridgeCore.HandleInputFrame | src/bridge/mod.rs:225-376 | One frame: state, suppression and reports of the kinds in it. |
| BridgeMachine.BridgeCore.TransitionBleTarget | src/bridge/mod.rs:493-518 | The target change, step by step. |
| BridgeMachine.BridgeCore.ClearHostEntry | src/bridge/mod.rs:533-561 | Forgetting a computer, step by step. |
| BridgeMachine.BridgeCore.EmitDetachUpdates | src/bridge/mod.rs:649-730 | The reports and the suppression after a removal. |
| BridgeMachine.BridgeCore.PushUsbKeyboardLeds | src/bridge/mod.rs:625-647 | One LED action for each interface that shows LEDs. |
| RuntimePairing.StatusTellsPairable | src/bridge/mod.rs:808-820 | Every status action tells the pairable host of the state after the event. |
| RuntimePairing.WindowFollowsBridge | src/runtime.rs:1447-1500 | After every input of every run, restores included, the runtime's pairing host is the bridge's. |
| RuntimeSafety.CommandsTellWindow | src/runtime.rs:1592-1712 | Over every run after the boot restore the AllowPairing and RejectPairing commands leave open exactly the runtime's pairing host. |
| RuntimeSafety.SwitchRefused | src/runtime.rs:1343-1356 | A switch is refused exactly when it would change the target and the number is invalid, storage cannot be written, or an LED interface is unknown. |
| RuntimeSafety.TickClosesWindow | src/runtime.rs:1358-1387 | A tick is refused exactly when a due switch is refused; a window that is due survives a tick exactly then. |
| RuntimeSafety.WindowCanOutliveTicks | src/runtime.rs:1358-1387 | A run of four inputs after which no tick ever closes the due window. |
| RuntimeSafety.DisconnectRefused | src/bridge/mod.rs:101-127 | A disconnect is refused exactly when another computer would take over and its switch cannot be dispatched. |
| RuntimeCommands.CommandsFit | src/runtime.rs:49-54 | No input of any run needs more than the 17 command slots. |
| RuntimeCommands.TickNeedsSixteen | src/runtime.rs:978-991 | A tick never needs the last slot. |
| RuntimeViews.PlainKeeps | src/runtime.rs:586-976 | Every input but a shortcut frame leaves a clean view clean, told by the runtime's commands. |
| RuntimeViews.ShortcutFrameIff | src/runtime.rs:1317-1398 | A shortcut frame leaves a clean view clean, unless its switch is delayed or goes nowhere and the frame no longer holds a key, modifier, button or usage that the view shows, of a kind in the frame. |
| RuntimeViews.NoStuckInputIff | src/runtime.rs:474-976 | Over every run of the runtime, quiesce calls included, every computer's view stays clean if and only if no such shortcut frame occurs. |
| RuntimeViews.ShortcutSticksButton | src/runtime.rs:1390-1398 | A run of six inputs from power-up after which no button is held and the computer believes that one is. |
| RuntimeMovement.ServeArrives | src/runtime/owner.rs:183-245 | One message, refused or not, moves the pointer of each host exactly as it asks, unless it is a shortcut frame with a computer to go to. |
| RuntimeMovement.MovementIsAccounted | src/runtime.rs:1317-1398 | Over every run what the frames point a host to is what its reports carry plus what shortcut frames lose. |
| RuntimeMovement.PointerArrives | firmware/src/main.rs:991-1089 | From the frames to the radio: what the lanes were handed and what the sink holds is exactly the movement of the frames, but for shortcut frames. |
| RuntimeTimers.DelayedSwitch | src/runtime.rs:1358-1420 | A switch asked for with a delay is made by the first tick from then plus the delay on, if it can be made, and by none before, whatever comes between that asks for no other. |
| RuntimeTimers.WindowStaysOpen | src/runtime.rs:1358-1387 | No tick closes a pairing window before its minute is over. |
| RuntimeTimers.NextConnectedIsNearest | src/bridge/host_state.rs:192-232 | The next computer is the connected one met first when going round the table from the active one, or from the top. |
| RuntimeTimers.ShortcutSwitches | src/runtime.rs:1317-1398 | The shortcut asks for the next computer, at once or after the delay from the present clock. |
| RuntimeTimers.ButtonSwitches | src/runtime.rs:1241-1315 | A press configured with 1 goes to the next connected computer and touches no entry. |
| RuntimeTimers.ButtonPairs | src/runtime.rs:1241-1315 | A press configured with 2 opens a window of a minute for a computer without a bond and forgets nobody. |
| RuntimeTimers.ButtonForgets | src/runtime.rs:1241-1315 | A press configured with 3 forgets the active computer and no other, and opens no window. |
| RuntimeTimers.ButtonIgnores | src/runtime.rs:1241-1315 | A press configured with anything else does nothing. |
| RuntimeTimers.DefaultButton | src/settings.rs:362-390 | As delivered a short press switches, a long one pairs, a very long one forgets. |
| RuntimeTimers.BootPicksTarget | src/runtime.rs:528-558 | After boot the configured computer is active if it is stored, else, if none is configured, the last one if that is to be restored. |
| RuntimeBus.AdvanceFollowsPolicy | src/runtime.rs:978-991 | The power after an input follows the policy for the state after it, and the bus is told of every change. |
| RuntimeBus.BusIsTold | src/runtime.rs:978-991 | Over every run the commands tell the bus exactly its power state. |
| RuntimeBus.BusSleepsAfterThreeSeconds | src/usb_hid/power.rs:27-57 | Over every run during which the bus is not needed it is suspended exactly once an input comes three seconds after the first or later. |
| RuntimeBus.BusWakesAtOnce | src/usb_hid/power.rs:27-57 | The bus runs again at the first input after which it is needed. |
| RuntimeSinks.LedsAreKnown | src/runtime.rs:1134-1209 | Over every run every keyboard that shows lights is registered with them, once. |
| RuntimeSinks.RegisterLists | src/runtime.rs:1134-1164 | An interface that comes is listed in the place of an older one of its number, and the others stay. |
| RuntimeSinks.InterfacesComeAndGo | src/runtime.rs:1134-1209 | Over every run no interface is listed twice, and one that is removed is gone while the others stay. |
| RuntimeSinks.SwitchRefusedInRun | src/runtime.rs:1343-1356 | So a switch is refused only for a wrong number or for storage that cannot be written. |
| RuntimeManagement.RequestIsAnswered | src/runtime/management_handler.rs:30-52 | Every request that goes through is answered once, and last. |
| RuntimeManagement.SelectingSwitches | src/runtime/management_handler.rs:69-82 | Selecting a known computer switches to it, at once or after the delay; otherwise nothing changes. |
| RuntimeManagement.PairingOpensWindow | src/runtime/management_handler.rs:83-106 | Pairing opens a window for a computer without a bond, and changes nothing otherwise. |
| RuntimeManagement.CancellingCloses | src/runtime/management_handler.rs:143-155 | Cancelling closes the window. |
| RuntimeManagement.ForgettingRemoves | src/runtime/management_handler.rs:107-119 | Forgetting removes that entry and no other. |
| RuntimeManagement.ProfilesArePersisted | src/runtime.rs:1166-1209 | A new profile, and one whose last interface went, is persisted while storage can be written. |
| RuntimeOwner.FrameRefusedIff | src/runtime/owner.rs:214-245 | A shortcut frame is refused exactly when its switch would change the target and cannot be dispatched. |
| RuntimeOwner.RefusedFrameIff | src/runtime/owner.rs:112-143 | A refused shortcut frame leaves a computer's view clean exactly if it showed nothing. |
| RuntimeOwner.ServeIff | src/runtime/owner.rs:183-245 | One message on the firmware's path leaves a clean view clean exactly if it is neither a shortcut frame that loses its reports nor one that is refused while the view shows something. |
| RuntimeOwner.NoStuckInputInPlaceIff | src/runtime/owner.rs:112-245 | Over every run on that path every computer's view stays clean if and only if no such message occurs. |
| RuntimeOwner.RefusedSwitchSticksButton | src/runtime/owner.rs:112-143 | A run of nine messages from power-up after which the target has changed, nothing was sent, and the old computer believes that a button is down. |
| RuntimeMachine.BridgeRuntime.HandleInput | src/runtime.rs:560-571 | One input, all or nothing. |
| RuntimeMachine.BridgeRuntime.RestoreStorageState | src/runtime.rs:528-558 | The boot restore, field by field, and whether it succeeds. |
| RuntimeMachine.BridgeRuntime.HandleManagement | src/runtime/management_handler.rs:57-160 | Selecting, pairing, cancelling and forgetting over the management channel, step by step. |
| RuntimeMachine.BridgeRuntime.RegisterInterface | src/runtime.rs:1134-1164 | A new interface is registered and told to the bridge, or refused. |
| RuntimeMachine.BridgeRuntime.UnregisterInterface | src/runtime.rs:1166-1209 | An interface goes, and with it what only it held. |
| RuntimeMachine.BridgeRuntime.HandleTick | src/runtime.rs:1358-1387 | The due switch and then the due window. |
| RuntimeMachine.BridgeRuntime.HandleButtonIntent | src/runtime.rs:1241-1315 | The configured action of a button press. |
| RuntimeMachine.BridgeRuntime.ObserveBridgeEvent | src/runtime.rs:1447-1500 | What the runtime learns from an event before the bridge does. |
| RuntimeMachine.BridgeRuntime.DispatchActions | src/runtime.rs:1592-1712 | One command per action until one cannot be dispatched; a status without a pairable host closes the window. |
| RuntimeMachine.BridgeRuntime.ReconcileUsbHostPower | src/usb_hid/power.rs:27-57 | The bus runs while nothing is plugged in or a computer is connected, and is suspended three seconds after. |
| WiredSafety.HandshakeIsSafe | src/runtime.rs:378-898 | In every run after boot the active target is the selected one exactly while ready, a pending request for the wired computer leaves it not ready and nothing active, and no report is sent between a request and the USB state taken as its confirmation. |
| WiredSafety.SwitchIsAllowed | src/bridge/mod.rs:403-459 | Releases to the wired computer go out before the request, and none after it. |
| WiredSafety.UsbStateIsAllowed | src/runtime.rs:833-898 | A USB state confirms and sends, or asks again and sends nothing. |
| WiredExact.HandshakeIsExactIff | src/runtime.rs:378-898 | Over every run after boot no report is sent between a request and a USB state that shows exactly what was requested, whatever comes next, if and only if no input changes or removes the entry that is waited for without a new request. |
| WiredExact.StepMatchesIff | src/runtime.rs:655-976 | One input keeps the runtime waiting for what was asked exactly if it is not such an input. |
| WiredExact.AmbiguityLosesRequest | src/mirror/candidate.rs:87-102 | A run with two candidates of one identity in which another hash than the requested one passes as the confirmation. |
| WiredExact.ClearingLosesRequest | src/runtime.rs:940-949 | A run in which the awaited entry is cleared and the fallback passes as the confirmation of a mirror. |
| WiredDelivery.ReportsGoOut | src/runtime.rs:586-976 | Over every run after boot all reports of a frame go out while the wired computer is active, and none otherwise; raw reports only while a device is mirrored. |
| WiredDelivery.AnswerActivates | src/runtime.rs:833-898 | A USB state that shows what was asked for makes the selected wired computer active with that presentation; any other answer of a healthy chip repeats the request. |
| WiredDelivery.HonestChipActivates | src/runtime.rs:833-898 | Over every run that loses no request one honest answer is enough. |
| WiredDelivery.LeavingReleases | src/bridge/mod.rs:403-459 | Leaving the active wired computer sends three neutral reports, then the request for the fallback. |
| WiredDelivery.ComingBackAsks | src/bridge/mod.rs:403-459 | Selecting the wired computer asks for the wanted presentation, and nothing is active until it is confirmed. |
| WiredDelivery.EffectiveIsExact | src/runtime.rs:345-376 | Wanted is the only candidate with the chosen identity, and a physical device only while it is alone. |
| WiredDelivery.DevicesAreFollowed | src/runtime.rs:378-395 | After devices come and go the wanted presentation is shown or asked for, after a release of everything. |
| WiredDelivery.ChoiceIsAsked | src/runtime.rs:378-448 | Choosing or clearing the mirror asks for what is then wanted, or for the fallback. |
| WiredDelivery.LostLinkFallsBack | src/bridge/mod.rs:101-127 | When the active BLE computer is lost the fallback target is selected; when another is lost the selection stays. |
| WiredDelivery.AcceptanceRegisters | src/runtime.rs:720-939 | A candidate is taken up exactly when its profile is accepted, whichever comes first. |
| WiredDelivery.OperationIsCurrent | src/output_target.rs:118-140 | The last request carries the number of the present operation. |
| WiredMachine.OutputTargetState.SelectTarget | src/output_target.rs:118-125 | Selecting clears the active target and counts an operation, or refuses unchanged. |
| WiredMachine.OutputTargetState.ReportAvailability | src/output_target.rs:127-135 | The selected target is active exactly when ready. |
| WiredMachine.WiredRuntime.DeviceUsbState | src/runtime.rs:833-898 | The in-place handling of a USB state. |
| WiredMachine.WiredRuntime.ReconcileWiredPresentation | src/runtime.rs:378-395 | Asks anew when the wanted presentation changed. |
| WiredMachine.WiredRuntime.BeginPresentationTransition | src/runtime.rs:423-448 | Release all, then the request. |
| MouseScaling.ScaleWithRemainder | src/domain/input_profile.rs:239-251 | One scaled step with its remainder, truncating toward zero and clamped to the axis. |
| MouseScaling.ScaleRun | src/domain/input_profile.rs:154-175 | Scaling a run value by value with the carried remainder gives its outputs and its last remainder. |
| MouseScaling.ClampActsIff | src/domain/input_profile.rs:239-251 | The clamp changes the value exactly when the quotient does not fit the axis. |
| MouseScaling.NoClampUpTo100 | src/domain/input_profile.rs:154-175 | With a percentage of at most 100 the clamp never acts. |
| MouseScaling.ScalingConserves | src/domain/input_profile.rs:239-251 | Over every run percent times the input equals 100 times output and clamped loss plus the remainder. |
| MouseScaling.ScalingIsAccurate | src/domain/input_profile.rs:154-175 | With at most 100 percent, 100 times the output differs from percent times the input by at most 99. |
| MouseAccumulator.MouseReportAccumulator.Push | src/mouse_accumulator.rs:45-71 | Adds a report with the same buttons to the pending one, or refuses unchanged. |
| MouseAccumulator.MouseReportAccumulator.TakeNext | src/mouse_accumulator.rs:85-100 | Takes as much as one report holds and leaves the rest. |
| MouseAccumulator.DrainCount | src/mouse_accumulator.rs:85-100 | Draining takes exactly as many reports as the fullest axis needs, and at least one. |
| MouseSink.DrainSums | src/mouse_accumulator.rs:85-100 | The drained reports sum to the pending movement in every direction. |
| MouseAccumulator.PartNeverOvershoots | src/mouse_accumulator.rs:142-152 | Taking moves no axis past zero. |
| MouseAccumulator.PutBackRestores | src/mouse_accumulator.rs:45-100 | Pushing a taken report back restores the pending state exactly. |
| MouseSink.ChannelTaskSink.SendInput | firmware/src/main.rs:991-1056 | Any movement report is merged and flushed, or handed over in order; every host's story stays the submitted one unless an axis saturates at 32 bits. |
| MouseSink.ChannelTaskSink.SendOrdered | firmware/src/main.rs:991-1056 | An edge is handed over after everything pending for its host. |
| MouseSink.ChannelTaskSink.FlushOrdered | firmware/src/main.rs:1058-1068 | Drains a host completely into the ordered lane. |
| MouseSink.ChannelTaskSink.Flush | firmware/src/main.rs:1070-1089 | Sends what the lane takes and puts back what it refuses. |
| MouseSink.FlushHandsOver | firmware/src/main.rs:1070-1089 | A round hands over one report of every pending host until a lane has no room, and leaves the others alone. |
| MouseSink.OrderedGoesLast | firmware/src/main.rs:1058-1068 | After an ordered report nothing is pending for its host and it is the last one handed over. |
| MouseSink.PassThroughKeeps | firmware/src/main.rs:991-1056 | Handing a report over directly keeps the story. |
| MouseSink.MovementConserved | firmware/src/main.rs:991-1089 | Handed-over and pending movement together are the submitted movement, in every direction. |
| MouseSink.EndToEndAccuracy | firmware/src/main.rs:991-1089 | From raw movement through scaling and the sink, what a host was handed and has pending is off by at most 99 hundredths of a count in every direction. |
| BleConnection.MatchIsSymmetric | src/ble_connection.rs:126-131 | The peer match is reflexive and symmetric. |
| BleConnection.MatchIsNotTransitive | src/ble_connection.rs:126-131 | It is not transitive. |
| BleConnection.ReplacementLosesLeast | src/ble_connection.rs:222-242 | Only an empty entry, else an expired one, else the one that expires first makes room. |
| BleConnection.BlockedForReturned | src/ble_connection.rs:202-253 | At every moment before the returned time is over, the peer is blocked for exactly the rest of it. |
| BleConnection.BlockedExactly | src/ble_connection.rs:202-253 | At the moment of the failure that holds exactly when the table has room for one entry and the clock does not saturate. |
| BleConnection.FreeAfterReturned | src/ble_connection.rs:202-253 | Once the returned time is over the peer is free exactly when no other entry that matches it still blocks. |
| BleConnection.BlockedExactlyIff | src/ble_connection.rs:202-253 | A failure blocks its peer for exactly the returned time, neither shorter nor longer, if and only if no other match outlasts it. |
| BleConnection.OtherMatchOutlasts | src/ble_connection.rs:202-253 | Six failures from an empty table of two entries, after which a peer waits five seconds by the answer and thirty by the table. |
| BleConnection.NthFailureWaits | src/ble_connection.rs:209-280 | The n-th failure of a retained entry waits 2, 5, 15 and then always 30 seconds. |
| BleConnection.PairingBackoff.Record | src/ble_connection.rs:209-253 | Records a failure in place. |
| BleConnection.PairingBackoff.BlockedRemaining | src/ble_connection.rs:202-207 | The first matching entry that still blocks. |
| BleConnection.PairingBackoff.ClearPeer | src/ble_connection.rs:255-261 | Empties exactly the matching entries. |
| BleConnection.ConnectKeepsUnique | src/ble_connection.rs:304-341 | A connection that clashes with no other slot keeps hosts and peers pairwise distinct. |
| BleConnection.ConnectionSlots.ConnectFirstFree | src/ble_connection.rs:304-323 | Connects exactly when the host is valid, nothing clashes and a slot is free; slots stay distinct. |
| BleConnection.ConnectionSlots.SetConnected | src/ble_connection.rs:325-341 | Replaces a slot exactly when no other slot clashes. |
| BleConnection.ConnectionSlots.SetDisconnected | src/ble_connection.rs:366-373 | Empties a slot in range, tells its host, and keeps the slots distinct. |
| BleConnection.ConnectionSlots.DispatchSlotForHost | src/ble_connection.rs:375-385 | Finds the one slot of a host. |
| MirrorPacket.DecodeOfEncode | src/e2e_mirror.rs:156-197 | Decoding gives back every well-formed packet. |
| MirrorPacket.Make | src/e2e_mirror.rs:129-150 | A packet can be made exactly for payloads of up to 47 bytes; it is well-formed and holds the payload. |
| MirrorPacket.AcceptedExactly | src/e2e_mirror.rs:170-197 | Exactly the encodings of well-formed packets are accepted. |
| MirrorPacket.EncodeOfDecode | src/e2e_mirror.rs:156-197 | An accepted string is the encoding of what it decodes to. |
| MirrorPacket.SingleByteRejected | src/e2e_mirror.rs:170-182 | Any change of one byte is rejected. |
| MirrorPacket.LineRoundTrip | src/e2e_mirror.rs:199-219 | The line form gives back every well-formed packet. |
| MirrorPacket.LineIsEncoding | src/e2e_mirror.rs:199-209 | An accepted line is the encoded one up to the case of its digits. |
| MirrorPacket.ReportIsAccepted | src/e2e_mirror.rs:67-104 | A report is the payloads accepted since the last packet that starts a transfer, whatever was rejected between, with the announced endpoint and length. |
| MirrorPacket.TransferArrives | src/e2e_mirror.rs:67-104 | A report sent in order, in packets of any sizes, arrives, whatever the receiver was doing. |
| MirrorPacket.PacketFields | src/e2e_mirror.rs:156-168 | Every field of a packet at its offset. |
| MirrorPacket.RawInjectionReceiver.Accept | src/e2e_mirror.rs:67-104 | The receiver with its fixed buffer computes the same answers. |
| MirrorPacket.EncodePacket | src/e2e_mirror.rs:156-168 | Fills the packet's bytes in place. |
| MirrorPacket.DecodeHexLine | src/e2e_mirror.rs:199-209 | The digit loop decodes a line or finds the first error. |

## Left out

- Executor, tasks, SPI, USB and register access, watchdog: `firmware/src/main.rs` but for the mouse sink, and `device-firmware`.
- Batch atomicity of the task sink, and the order between the BLE lanes after hand-over.
- The input aggregator: its result is an arbitrary value, so every aggregation policy is covered; an aggregation that fails leaves the bridge unchanged and is not an event of the model.
- The wired build outside the handshake: its routing, its suppression and its storage fields (output target, mirror target, linked host). No stuck input and the action bound are stated for the standard build only; in the wired build a removal looks at the BLE target alone and a switch can need 17 actions.
- The realtime frame path is modelled by the bridge's frame handling, whose reports it hands over; its queue is taken to have room.
- The priority with which the runtime asks for a snapshot to be persisted: the model has the request only, and the scheduler takes every priority.
- Settings, host names and diagnostics over the management channel; history, counters, statistics and log levels.
- The LED report encoding: an LED action fails only if its interface is not registered with an LED output.
- A task sink that refuses commands after a message was processed: the firmware then rolls back all but input frames. The model ends where the commands are queued.
- Journal.ScanFlashSlot: a flash read error, which aborts the boot scan with that error, is not modelled, because the scan then has no result to speak about.
- RuntimeMachine.BridgeRuntime.HandleManagement: only the four requests that route or pair, and no answer codes, because the others read or write one setting.
- Metadata updates fail when the profile table is full of connected profiles; the runtime model has only the successful ones.
- WiredMachine.WiredRuntime: three of the handshake's handlers are objects' methods; the others are modelled on values only, so update in place is not captured for them.
- The order of error checks where one failing input has two errors is kept, but error values of the runtime are not distinguished.
- Layout and remap transforms of keys, consumer remapping, identity hashes, port paths: table look-ups.
- BleBondRevocations, BleInputGate, timing checks and host resolution in `src/ble_connection.rs`: one-line tables.
