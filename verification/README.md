# HomeKey lock firmware: a verified model

A Dafny model of the stateful parts of an ESP32 HomeKit/HomeKey lock firmware, with proofs about whole
runs rather than single calls. Classes carry the fields the firmware's objects carry; their methods are
proved against functions of the old state, and the lemmas are about those functions and about runs.

- **Lock control** (`LockSpec`, `LockRuns`, `LockLaws`, `LockPipeline`, `AppEventLoop`,
  `CommandReplay`): a command sets
  a target and posts HW_ACTION, a queue feeds the task that drives the pin, and its report comes back. The
  three FIFO stages are a transition system in which any enabled stage may move next.
- **GPIO allocator** (`GpioSpec`, `GpioRuns`, `GpioLaws`, `GpioAllocator`): leases, sharing by role, and the release
  that runs after the control has already expired and may interleave with a new grant.
- **Backup and restore** (`BackupHeader`, `BackupSpec`, `BackupTheorems`, `BackupLaws`, `Backup`, `NodeSettings`, `Hex`,
  `Aead`, `JsonTree`): the binary header, the sealed and signed envelope, and what a restore brings across.
- **Household and node identity** (`HouseholdSpec`, `HouseholdRuns`, `HouseholdLaws`, `Household`, `NodeIdentity`): the
  three NVS blobs under saves cut short anywhere, and the replacement identity.
- **Guest cards** (`GuestSpec`, `GuestTheorems`, `GuestLaws`, `GuestTags`, `NtagCardIo`, `TeachSpec`, `TeachRuns`,
  `NfcTeaching`): the table, the UID-bound payload, page I/O, and the teaching protocol of two tasks.
- **Credentials** (`CredentialStore`, `CredentialCodec`, `NvsCredentials`, `IssuerReconcile`): the stored
  document at the level of MessagePack objects, and the reconciliation of issuers with controllers.
- **Configuration and provisioning** (`ConfigSpec`, `ConfigTheorems`, `ConfigLaws`, `Config`,
  `Provisioning`).

Cryptographic primitives are ideal functions. The AEAD (section 2.8 of RFC 8439, with the 24-byte nonce)
opens exactly what it sealed under the same key, nonce and associated data; signatures (section 5.1 of
RFC 8032) verify for the matching key; hashes and MACs are functions, injective only where a lemma says so.
NVS is a map to blobs, and every write's success, every timer start, random draw and clock reading is a
parameter.

Several promises of the comments do not hold of the code. The code is modelled, and the exact condition is
proved:

- A household table document never yields a record: the 16-byte token goes through a parser that stops at
  ten bytes (`SyncImportsNothing`, `SyncRoundTrip`).
- `controllerCallback` sweeps the list it erases from, not a copy (`CompiledIff`, `AdjacentStaleSkipped`).
- A restore refused at the identity step has already changed the membership, and every booted device has an
  identity (`UnchangedIff`, `IdentityRefusedIff`, `RefusedOnBootedDevice`).
- The flags of a backup's node configuration are never restored (`SettingsRestored`).
- A failed re-teach of a known card is not taken back in RAM (`FailedCommit`, `FailedReteach`), and a card
  refused because only the commit failed comes back with the next boot (`FailedCommitDurable`,
  `RefusedCardComesBack`).
- An armed intent can be discarded by the end of an earlier write (`DiscardedIff`, `DiscardedRun`).
- "Strictly larger" generations wrap after 255 (`RegeneratedGrows`, `PreservedExactly`, `GenerationWraps`).
- A consumed code works again after a reboot if its flag never reached flash (`ReuseAfterLostWrite`,
  `ReusedCode`, `TornIssueIff`).
- A restore cut short can pair a new secret with an old salt (`MixedPairAfterOneWrite`, `MixedPair`).
- A stale holder can keep refusing claims every live lease would allow (`StaleHolderRefuses`,
  `StaleHolderReached`).
- The override sentinel is MAX, not 255 (`OverrideSentinel`, `SentinelStored`).
- GET then PUT truncates a plain string that holds a NUL (`GetThenPut`, `NulIsLost`).

## Model

| member | source | states |
|---|---|---|
| LockRuns.Convergence | main/LockManager.cpp:237-309 | from every state of every promised run, every schedule of the three stages takes exactly 3·actions + 2·queued + updates steps; when nothing can move, and only then, current equals target, the pin is at the target's configured level, the last report says so, and all schedules have reached the same state |
| LockRuns.TracksStep | main/HardwareManager.cpp:507-540 | a step keeps "the newest thing in flight is the target, and with nothing in flight the lock is there" exactly when it is harmless: not an unposted NFC request for another target, not an outside update to another state with nothing in flight, not a drop or a dead-pin discard of the only element that leads to the target |
| LockRuns.RunTracks | main/LockManager.cpp:46-63 | every state of a promised run tracks its target, the pin included |
| LockRuns.PinTracksStep | main/HardwareManager.cpp:507-540 | with a live pin, the pin rests at the target's level whenever nothing is left to drive |
| LockRuns.InternalStep | main/HardwareManager.cpp:362-366 | each stage lowers the measure by exactly one and leaves the state the pipeline will settle in unchanged |
| LockRuns.DrainFrom | main/HardwareManager.cpp:507-540 | along any run of the stages alone the measure falls by the number of steps and the settled state stays the same |
| LockRuns.Progress | main/HardwareManager.cpp:58-66 | while anything is in flight some stage can move, so a full queue never blocks for good |
| LockRuns.SettledAtTarget | main/HardwareManager.cpp:507-540 | a tracking pipeline settles with current and pin at the target and a last report naming it |
| LockRuns.PostedByRequest | main/LockManager.cpp:237-268 | a request posts one action with its target and one report, or nothing when ignored, or the report alone for NFC with GPIO control off |
| LockRuns.PostedByOverride | main/LockManager.cpp:285-309 | an override that changes something posts one action carrying the target as it then stands |
| LockRuns.TapToggles | main/LockManager.cpp:115-125 | a tap on a settled lock toggles it once drained, exactly when NFC requests reach the hardware |
| LockRuns.StrandedTap | main/LockManager.cpp:252-263 | a concrete tap with GPIO control off: the target moves, nothing is in flight, the lock stays locked |
| LockRuns.NoPinNeverMoves | main/HardwareManager.cpp:507-540 | without a pin to drive no request or tap ever moves the current state or the pin, outside dumb-switch mode |
| LockRuns.RunTimerGuarded | main/LockManager.cpp:148-190 | in every state of every run the timer is armed only while the target is UNLOCKED |
| LockLaws.TimerAfterRequest | main/LockManager.cpp:154-190 | exactly when a request leaves the timer running: an unlock from HomeKit with bit 1 or from NFC with bit 2 of the momentary sources, unless bits and pin fill the byte outside dumb-switch mode |
| LockLaws.TimerAfterOverride | main/LockManager.cpp:285-309 | exactly when an override leaves the timer running |
| LockLaws.UnlockArms | main/LockManager.cpp:154-190 | an unlock arms the timer from HomeKit exactly with M_HOME, from NFC exactly with M_HK, from any other source never, and from none when bits and pin fill the byte |
| LockLaws.RequestEffect | main/LockManager.cpp:237-268 | target, source, current state and the exact events of a request, in terms of the configuration |
| LockLaws.OverrideEffect | main/LockManager.cpp:285-309 | which states an override takes, and the events it posts |
| LockLaws.ReportEffect | main/LockManager.cpp:46-63 | a report moves the current state alone and is passed on with its own source |
| LockLaws.TapEnds | main/LockManager.cpp:115-125 | where an accepted tap takes a tracking pipeline: open, closed or opposite, always-unlock winning |
| LockLaws.DeadPin | main/HardwareManager.cpp:507-525 | a pin numbered 255 or without its lease is never driven and its requests are never reported |
| LockLaws.DrivenPin | main/HardwareManager.cpp:507-540 | a live pin goes to the configured level of a lock or unlock and stays for any other state |
| LockLaws.ExpiryEffect | main/LockManager.cpp:144-152 | an expiry stops the timer and owes one callback, which asks for LOCKED on the device's own account |
| LockRuns.CallbackLocks | main/LockManager.cpp:144-146 | a timer callback, however late it runs, leaves target LOCKED and the timer idle |
| LockRuns.MomentaryRelock | main/LockManager.cpp:144-190 | whatever happened between the timer's expiry and its callback, once the callback has run any complete drain ends with the lock and the pin locked and the timer idle |
| LockRuns.OverrideSentinel | main/LockManager.cpp:274-293 | an override leaves a state alone exactly when it is given MAX or what is already there; the 255 named in the comment is stored like any other value |
| LockRuns.SentinelStored | main/LockManager.cpp:274-293 | a concrete override: told 255, it stores 255 |
| LockPipeline.LockManager.constructor | main/LockManager.cpp:23-72 | starts LOCKED/LOCKED with the timer idle |
| LockPipeline.LockManager.Begin | main/LockManager.cpp:128-136 | posts the initial HW_ACTION |
| LockPipeline.LockManager.StopMomentaryTimer | main/LockManager.cpp:148-152 | afterwards the timer is idle and nothing else moved |
| LockPipeline.LockManager.StartMomentaryTimerIfNeeded | main/LockManager.cpp:154-190 | arms the timer only for an unlocked target and an enabled momentary source |
| LockPipeline.LockManager.SetTargetState | main/LockManager.cpp:237-268 | the new fields and the exact events, in order, of a request |
| LockPipeline.LockManager.OverrideState | main/LockManager.cpp:285-309 | the new fields and the exact events, in order, of an override |
| LockPipeline.LockManager.OnUpdateState | main/LockManager.cpp:46-63 | the report is applied, its source kept, and one LOCK_STATE_CHANGED with the current target posted |
| LockPipeline.LockManager.OnTap | main/LockManager.cpp:86-128 | an accepted tap is a request for the forced or the opposite state; any other changes nothing |
| LockPipeline.LockManager.HandleTimer | main/LockManager.cpp:144-146 | the callback is an internal request for LOCKED |
| LockPipeline.HardwareManager.SetLockOutput | main/HardwareManager.cpp:362-366 | the target joins the five-slot queue, or is lost exactly when the queue is full |
| LockPipeline.HardwareManager.LockControlStep | main/HardwareManager.cpp:507-540 | one task round: the oldest request drives a live pin and is reported back once; with no live pin it is discarded |
| AppEventLoop.FrameRoundTrip | main/app_event_loop.cpp:17-29 | the subscriber gets the first 256 bytes of a payload, which is all of it exactly when it has at most 256 |
| AppEventLoop.FramePrefix | main/app_event_loop.cpp:48-63 | the prefix is the length of what follows, low byte first |
| AppEventLoop.Carrier.Publish | main/app_event_loop.cpp:48-63 | the posted buffer is the length-prefixed frame of the payload, behind all earlier ones |
| CommandReplay.WindowIsLast32 | main/MqttManager.cpp:1085-1100 | over any trace the deque is the last 32 accepted nonces without duplicates, and accepted messages and posted commands are equally many |
| CommandReplay.ReplayDistance | main/MqttManager.cpp:1085-1100 | between two acceptances of one nonce lie at least 32 acceptances, the last 32 of pairwise distinct other nonces |
| CommandReplay.OneCommand | main/MqttManager.cpp:1100-1106 | an accepted message posts exactly one command from MQTT, UNLOCKED for the unlock topic and LOCKED for the lock topic; any other posts nothing and is not remembered |
| CommandReplay.CommandsInOrder | main/MqttManager.cpp:1023-1115 | over any trace the k-th command posted is that of the k-th message accepted |
| CommandReplay.ActedOnIff | main/MqttManager.cpp:1023-1092 | exactly which messages are acted on: enrolment, key, topic, MAC of that action, five minutes either way of a set clock, and a nonce not in the window |
| CommandReplay.AcceptOne | main/MqttManager.cpp:1085-1100 | accepting one fresh nonce and dropping the oldest is again the last 32 |
| CommandReplay.MqttManager.HandleSecureCommand | main/MqttManager.cpp:1023-1115 | which messages are recognised, the exact new window, and one target event for an accepted message, none for a rejected one |
| GpioRuns.EveryRunSafe | main/include/GPIOAllocator.hpp:153-180 | under every interleaving of acquire, copy, drop and late release each pin has at most one live control, and its live claims are one claim, all of one passive role, or all Led |
| GpioLaws.SharedRoles | main/include/GPIOAllocator.hpp:88-91 | in every run, live leases of different claims on one pin have one role, and it is one of SpiSck, SpiMiso, SpiMosi, I2cSda, I2cScl and Led |
| GpioLaws.SecondClaimIff | main/include/GPIOAllocator.hpp:260-294 | a second claim on a pin with one live lease is granted exactly in the same role, one of the six; otherwise ALREADY_OWNED and no change |
| GpioLaws.ShareableIff | main/include/GPIOAllocator.hpp:260-271 | a holder list lets a role in exactly when it is empty or all of one of the six sharing roles |
| GpioLaws.BoardAnswers | main/include/GPIOAllocator.hpp:273-283 | exactly which answer the board tests give, in their order, output-driving modes spelled out |
| GpioLaws.ControlsPermitted | main/include/GPIOAllocator.hpp:153-180 | in every run each control made is on a valid, unrestricted pin, output-capable if its mode drives |
| GpioLaws.NoPinIsFree | main/include/GPIOAllocator.hpp:156-160 | the pin values 255 and -1 are granted without touching anything |
| GpioLaws.GrantEffect | main/include/GPIOAllocator.hpp:161-180 | what a grant adds: one holder with consumer, role and name, one lease of a new claim, a new control exactly when none is live |
| GpioLaws.CopyEffect | main/include/GPIOAllocator.hpp:117-151 | a copy is one more lease of the same claim and control |
| GpioLaws.DropEffect | main/GPIOAllocator.cpp:3-6 | a drop takes its lease away and owes one release exactly when it was the control's last |
| GpioLaws.ReleaseEffect | main/include/GPIOAllocator.hpp:305-312 | a release pays one such debt and empties the entry unless a live control has the pin |
| GpioRuns.RunInv | main/include/GPIOAllocator.hpp:110-180 | every state of every run satisfies the invariant that ties live leases, stale holders and pending releases together |
| GpioRuns.StepKeeps | main/include/GPIOAllocator.hpp:110-180 | each of the four steps keeps that invariant |
| GpioRuns.GrantKeeps | main/include/GPIOAllocator.hpp:153-180 | a grant keeps the invariant even when a release of the same pin is still pending |
| GpioRuns.DropKeeps | main/GPIOAllocator.cpp:3-6 | the last drop expires the control before the entry is released, and keeps the invariant |
| GpioRuns.ReleaseKeeps | main/include/GPIOAllocator.hpp:305-312 | the late release keeps the invariant whether or not a new control has taken the pin |
| GpioRuns.NoLeak | main/include/GPIOAllocator.hpp:305-312 | once a pin has no live lease and no pending release its entry has no holders |
| GpioRuns.GrantedIff | main/include/GPIOAllocator.hpp:182-294 | in a reachable state a claim is granted exactly when the board allows it and the pin has no live lease or every listed holder, stale ones included, shares its shareable role |
| GpioRuns.StaleHolderRefuses | main/include/GPIOAllocator.hpp:260-312 | a stale holder can refuse a claim every live lease would allow: the interleaving is exhibited from any state with a pending release |
| GpioRuns.StaleHolderReached | main/GPIOAllocator.cpp:3-6 | such a state is reached from start-up by one output claim and the drop of its lease |
| GpioRuns.GrantCompatible | main/include/GPIOAllocator.hpp:260-294 | a claim that passes validation is compatible with every live lease on its pin |
| GpioRuns.OnlyTheGrantIsLive | main/include/GPIOAllocator.hpp:153-180 | a grant on a pin without live leases is the only live lease there |
| GpioRuns.StaleRelease | main/include/GPIOAllocator.hpp:305-312 | a release that finds a live control leaves the entry as it is, stale holder included |
| GpioAllocator.AllHoldersHave | main/include/GPIOAllocator.hpp:260-271 | true exactly when every listed holder has the role |
| GpioAllocator.CheckShareable | main/include/GPIOAllocator.hpp:260-271 | the holder list can be shared exactly when all are of one passive role or all Led |
| GpioAllocator.GPIOAllocator.ValidateLocked | main/include/GPIOAllocator.hpp:273-294 | the verdict on a claim, in the order of the source's checks |
| GpioAllocator.GPIOAllocator.Validate | main/include/GPIOAllocator.hpp:182-189 | the same verdict, with the unset pin always accepted |
| GpioAllocator.GPIOAllocator.AcquirePin | main/include/GPIOAllocator.hpp:153-180 | the new world is the granted one with a lease of the live or a fresh control, or unchanged with the error |
| GpioAllocator.GPIOAllocator.CopyLease | main/include/GPIOAllocator.hpp:117-151 | one more lease of the same control |
| GpioAllocator.GPIOAllocator.DropLease | main/GPIOAllocator.cpp:3-6 | the lease is gone, and the last one of a control leaves a pending release |
| GpioAllocator.GPIOAllocator.ReleaseEntry | main/include/GPIOAllocator.hpp:305-312 | the holders are cleared exactly when no live control has the pin |
| Hex.RoundTrip | main/RestoreManager.cpp:21-38 | decoding an encoding gives the bytes back, in either case of digits |
| Hex.Spelled | main/BackupManager.cpp:47-56 | the digits themselves, high digit first, in either case |
| Hex.DigitRead | main/RestoreManager.cpp:20-26 | which characters are digits, and of what value |
| Hex.HexEncode | main/BackupManager.cpp:47-56 | the loop computes the two-digits-a-byte encoding |
| Hex.HexDecode | main/RestoreManager.cpp:21-38 | the loop computes the decoding, empty for odd lengths and non-digits |
| BackupHeader.HeaderRoundTrip | main/BackupManager.cpp:84-148 | parsing a printed header with anything behind it returns the metadata with ids cut to 24, 24 and 32 bytes and the same salt and nonce; it is the metadata itself exactly when nothing was cut |
| BackupHeader.HeaderLayout | main/BackupManager.cpp:84-102 | where each field stands in the header, byte by byte |
| BackupHeader.HeaderCaps | main/BackupManager.cpp:88-97 | strings are cut to 24, 24 and 32 bytes and nothing else changes |
| BackupHeader.ParseIff | main/BackupManager.cpp:116-148 | data parses to a header exactly when it starts with that header's layout |
| BackupHeader.ParseInverse | main/BackupManager.cpp:116-148 | whatever parses starts with the printed form of what was parsed |
| BackupHeader.ParseLayout | main/BackupManager.cpp:116-148 | a printed header parses to itself, whatever follows |
| BackupHeader.Le32RoundTrip | main/BackupManager.cpp:72-77 | little-endian printing and reading of the timestamp are inverse |
| BackupHeader.BuildHeaderPrefix | main/BackupManager.cpp:84-102 | the appends produce exactly the layout, 82 bytes plus the three lengths |
| BackupHeader.Cursor.Take | main/BackupManager.cpp:104-114 | takes exactly the bytes asked for, or nothing when fewer are left; the position never passes the end |
| BackupHeader.ParseHeaderPrefix | main/BackupManager.cpp:116-148 | succeeds exactly when the data starts with a header, returns that header, and its length is the printed length |
| BackupHeader.TakeIds | main/BackupManager.cpp:119-128 | the cursor reads version and ids as the parse function does |
| BackupHeader.TakeStamp | main/BackupManager.cpp:129-136 | the cursor reads role, generation and timestamp as the parse function does |
| BackupHeader.TakeKeys | main/BackupManager.cpp:141-146 | the cursor reads key, salt and nonce as the parse function does |
| BackupTheorems.BackupThenRestore | main/RestoreManager.cpp:71-163 | restoring a created blob with its secret on a device without an identity completes and preserves household id (cut to 24), name, trust key, ACTIVE state, all derived keys, role, device name and issuers, with the next generation; the new node holds the generated key pair and a fingerprint over its id and public key; the configurations are updated from the source's settings |
| BackupTheorems.PreservedExactly | main/NodeIdentityManager.cpp:167-202 | id kept exactly when at most 24 bytes; trust key exactly when the source had one or the target none; generation larger exactly when the source's is below 255; the node id always differs |
| BackupTheorems.IssuersArrive | main/RestoreManager.cpp:153-163 | on an empty store exactly the source's issuer ids and 32-byte keys arrive, in order |
| BackupTheorems.DecryptIff | main/BackupManager.cpp:346-388 | a blob opens to a payload and header exactly when it is a version-1 header, the payload sealed under the derived key and bound to that header, and a valid signature over both |
| BackupTheorems.AuthenticOpens | main/BackupManager.cpp:346-388 | every authentic blob opens to what it was made from |
| BackupTheorems.OpenedIsAuthentic | main/BackupManager.cpp:346-388 | nothing but an authentic blob opens |
| BackupTheorems.CreatedOpens | main/BackupManager.cpp:214-344 | a created blob opens under its secret to the payload document and the capped header |
| BackupLaws.CreatedIff | main/BackupManager.cpp:214-344 | exactly when a backup is made |
| BackupLaws.BackupSays | main/BackupManager.cpp:287-297 | what the header of a created backup says of its source |
| BackupLaws.PayloadSays | main/BackupManager.cpp:268-285 | what the payload says of the household, member by member |
| BackupLaws.EndpointsStay | main/BackupManager.cpp:236-245 | stores that differ only in endpoints and their keys make the same issuer list |
| BackupLaws.OutcomesIff | main/RestoreManager.cpp:71-104 | exactly which outcome a restore has, the first refusal naming it |
| BackupLaws.SilentPayload | main/RestoreManager.cpp:93-108 | the names a payload without members restores, with everything else as it was |
| BackupLaws.SettingsRead | main/RestoreManager.cpp:130-136 | a flag is set by the string "true" alone; the port of a configuration without one, or with one that is no number |
| BackupTheorems.CompletesIff | main/RestoreManager.cpp:71-121 | the exact condition under which a restore completes |
| BackupTheorems.UnchangedIff | main/RestoreManager.cpp:71-121 | a restore leaves the device as it was exactly when it does not reach the household (the blob does not open, its payload does not parse, or no secret is given), or when the membership step changes nothing and no new identity can be made |
| BackupTheorems.IdentityRefusedIff | main/RestoreManager.cpp:106-121 | the identity step refuses exactly when the household was reached and the device has an identity, or no key pair can be made, or the node cannot be saved |
| BackupTheorems.RefusedOnBootedDevice | main/main.cpp:660-662 | a created backup restored with the right secret on any device with an identity is refused with the membership already installed and everything else as it was |
| BackupTheorems.FailedRestore | main/RestoreManager.cpp:71-121 | a restore that does not complete changes nothing unless it reaches the household; then the device is an ACTIVE member, and of the rest only a blank node can have moved |
| BackupTheorems.SettingsRestored | main/RestoreManager.cpp:122-147 | where no value breaks out of its quotes: texts and port are the source's, a secret that is the mask is not taken over, no flag is ever set, so a flag survives exactly when it was off, and no other field moves |
| BackupTheorems.InstallPreserves | main/RestoreManager.cpp:95-163 | installing a root that carries the source's payload preserves the household |
| BackupTheorems.AddAllDocs | main/RestoreManager.cpp:153-163 | restoring exported issuers appends exactly the exportable ones not present yet |
| BackupTheorems.AllMissing | main/RestoreManager.cpp:153-163 | with distinct, exportable, new ids that is all of them, one for one |
| BackupTheorems.PayloadFields | main/BackupManager.cpp:268-285 | the payload document carries name, trust key, device name and issuers under the members the restore reads |
| BackupSpec.BlobParts | main/BackupManager.cpp:346-388 | a blob long enough is its header layout, ciphertext and 64-byte signature joined |
| NodeSettings.MqttRestored | main/RestoreManager.cpp:124-136 | the MQTT configuration after its text was pasted back, field by field |
| NodeSettings.MiscRestored | main/RestoreManager.cpp:137-147 | the device name and web configuration after its text was pasted back, field by field |
| NodeSettings.FlagsNotRead | main/RestoreManager.cpp:40-45 | no flag a backup writes is read back, for flags are JSON booleans and the reader takes only strings |
| NodeSettings.PastedMember | main/RestoreManager.cpp:125-146 | a member is pasted as its quoted key, a colon and its value |
| NodeSettings.PastedValues | main/RestoreManager.cpp:125-146 | texts are pasted in quotes as they are, flags as words, numbers in decimal |
| NodeSettings.PastedMembers | main/RestoreManager.cpp:125-146 | members follow each other with a comma |
| NodeSettings.DigitsSpell | main/RestoreManager.cpp:125-146 | decimal digits spell their number, without leading zeros |
| Backup.BackupManager.ExportIssuers | main/BackupManager.cpp:236-245 | one document per issuer with its hex id and public key, in order |
| Backup.BackupManager.BuildPayload | main/BackupManager.cpp:268-285 | the payload document of the household, the settings and the store |
| Backup.BackupManager.CreateBackup | main/BackupManager.cpp:214-344 | the blob of the current household, with time and hash recorded, or nothing and no change |
| Backup.BackupManager.DecryptBlob | main/BackupManager.cpp:346-388 | opens exactly what the decryption function opens; every slice is in range |
| Backup.RestoreManager.RestoreIssuers | main/RestoreManager.cpp:153-163 | every well-formed issuer whose id is new is added; identity and labels stay |
| Backup.RestoreManager.InstallConfig | main/RestoreManager.cpp:122-147 | both configurations are updated from the pasted text, and nothing moves without a node_config member or when the text does not parse |
| Backup.RestoreManager.InstallIssuers | main/RestoreManager.cpp:153-163 | the listed issuers are added and the store is written exactly when there is a list, labels and reader identity staying |
| Backup.RestoreManager.InstallPayload | main/RestoreManager.cpp:95-163 | membership, then identity, configuration, issuers and their store, stopping at the first refusal |
| Backup.RestoreManager.RestoreBlob | main/RestoreManager.cpp:71-163 | the restore as one function of the target, the blob and the secret, and exactly when the credential store is written |
| HouseholdSpec.DerivationsAgree | main/HouseholdManager.cpp:258-271 | the two copies of the backup-key derivation agree exactly when neither secret nor salt is empty |
| HouseholdSpec.SavedBlobs | main/HouseholdManager.cpp:297-349 | what each of the three blobs is after any number of landed writes |
| HouseholdRuns.ClaimsAreBacked | main/HouseholdManager.cpp:297-406 | from any flash, through any run with saves cut anywhere, the claim in RAM has secret and salt behind it, and flash is backed from the first backed state on, unless it still holds the legacy record |
| HouseholdRuns.SaveBacked | main/HouseholdManager.cpp:297-349 | any prefix of a save keeps flash backed; META once written is backed, and before that is untouched |
| HouseholdRuns.StepSound | main/HouseholdManager.cpp:123-256 | joins, restores, state changes, exports, migrations and reboots keep that |
| HouseholdRuns.BootSound | main/HouseholdManager.cpp:351-406 | booting from any flash withdraws an unbacked claim |
| HouseholdRuns.SaveThenLoad | main/HouseholdManager.cpp:297-406 | a whole save is what the next boot loads, strings cut to their fields |
| HouseholdRuns.ExportOnce | main/HouseholdManager.cpp:243-256 | after an export no second one returns the secret until a reboot or migration |
| HouseholdLaws.ExportEffect | main/HouseholdManager.cpp:243-256 | the first export gives the secret itself and marks it, changing nothing else; a marked one is refused |
| HouseholdLaws.ExportSurvives | main/HouseholdManager.cpp:243-256 | after a whole save the refusal outlives a reboot |
| HouseholdLaws.JoinEffect | main/HouseholdManager.cpp:123-151 | which argument a join puts where, and what becomes of a held or missing pair |
| HouseholdLaws.RestoreEffect | main/HouseholdManager.cpp:153-182 | which argument a restore puts where, and when it is refused |
| HouseholdLaws.FingerprintIs | main/HouseholdManager.cpp:288-295 | the fingerprint of a new pair is the first half of its backup key |
| HouseholdLaws.StateEffect | main/HouseholdManager.cpp:89-121 | a state change is that alone; a migration blanks a missing or unstamped record and no other |
| HouseholdLaws.RecordFields | main/HouseholdManager.cpp:297-349 | the stored record: strings cut to 24, 32, 64 and 64 bytes, everything else as it is |
| HouseholdLaws.SaveWhole | main/HouseholdManager.cpp:297-349 | exactly when a save is reported whole |
| HouseholdLaws.BootUnknown | main/HouseholdManager.cpp:351-380 | a missing record or one of a newer firmware boots blank and stays on flash |
| HouseholdLaws.BootKnown | main/HouseholdManager.cpp:351-406 | any other record boots as it stands, but for a claim its blobs do not back |
| HouseholdRuns.MixedPairAfterOneWrite | main/HouseholdManager.cpp:153-182 | flash pairs a new secret with an old salt exactly when one write of a replacing restore landed and both values differ |
| HouseholdRuns.MixedPair | main/HouseholdManager.cpp:297-349 | a concrete restore after which flash holds the new secret beside the old salt |
| Household.HouseholdManager.constructor | main/HouseholdManager.cpp:351-406 | boot loads the flash, or blanks, and repairs an unbacked claim |
| Household.HouseholdManager.SaveRecord | main/HouseholdManager.cpp:297-349 | the three writes land in order up to the fault; success exactly when all and the commit did |
| Household.HouseholdManager.RecomputeRecoveryMetadata | main/HouseholdManager.cpp:288-295 | the fingerprint of the current pair |
| Household.HouseholdManager.EnsureRecoverySecret | main/HouseholdManager.cpp:221-241 | mints a pair only when one is missing; true exactly when one was held or the save succeeded |
| Household.HouseholdManager.JoinHousehold | main/HouseholdManager.cpp:123-151 | the joined record, its pair and the flash left by both saves |
| Household.HouseholdManager.RestoreHousehold | main/HouseholdManager.cpp:153-182 | the restored membership, or no change when secret or salt is empty |
| Household.HouseholdManager.MarkState | main/HouseholdManager.cpp:184-219 | the state and its save |
| Household.HouseholdManager.ExportRecoverySecretOnce | main/HouseholdManager.cpp:243-256 | the secret if it is held and not exported yet, and the exported mark |
| Household.HouseholdManager.MigrateRecord | main/HouseholdManager.cpp:89-121 | the blank record and its save |
| NodeIdentity.IdsDiffer | main/NodeIdentityManager.cpp:167-202 | ids of different generations differ, whatever role precedes the digits |
| NodeIdentity.Pad3Injective | main/NodeIdentityManager.cpp:167-202 | three-digit generations are injective |
| NodeIdentity.RegeneratedGrows | main/NodeIdentityManager.cpp:125-165 | the new generation is strictly larger than all seen exactly when none seen is 255; role, name, household and state stay and the fingerprint is fresh |
| NodeIdentity.NewIdentityHolds | main/NodeIdentityManager.cpp:82-202 | a generated, replaced or regenerated identity holds the new key pair and a fingerprint over its id and public key |
| NodeIdentity.FirstIdentity | main/NodeIdentityManager.cpp:91-123 | a first identity has generation one, the given role and name, and is made exactly when there is none |
| NodeIdentity.ReplacementIs | main/NodeIdentityManager.cpp:167-202 | when a replacement is made, and what it is: active in its household, one generation on, wrapping at 255 |
| NodeIdentity.ShownIds | main/include/household_types.hpp:105-117 | ids as shown, for every role |
| NodeIdentity.GenerationWraps | main/NodeIdentityManager.cpp:125-165 | a concrete wrap: after generation 255 comes generation 0 |
| NodeIdentity.NodeIdentityManager.GenerateIdentity | main/NodeIdentityManager.cpp:91-123 | the first identity, refused when one exists |
| NodeIdentity.NodeIdentityManager.RegenerateIdentity | main/NodeIdentityManager.cpp:125-165 | the regenerated identity, refused when none exists |
| NodeIdentity.NodeIdentityManager.CreateReplacementIdentity | main/NodeIdentityManager.cpp:167-202 | the replacement identity with the next generation, refused when one exists |
| NodeIdentity.NodeIdentityManager.RecomputeFingerprint | main/NodeIdentityManager.cpp:82-89 | the fingerprint covers id and public key as they now are |
| NfcTeaching.TeachAndTap | main/NfcManager.cpp:592-720 | a taught card tapped with unchanged memory and table is Accepted exactly when guest access and the record are enabled and now is in the record's window, whatever else is in the table and whatever the card claims of its size; over a steady link to a card with room there is always a verdict |
| GuestTheorems.TeachThenTap | main/GuestTagManager.cpp:422-533 | the same for the table and payload alone, with the reason each refusal gives |
| GuestTheorems.AcceptedIff | main/GuestTagManager.cpp:500-533 | a tap is accepted exactly when the table knows the card, both enables are set, the payload was sealed for this card and record, and the time is in the window |
| GuestLaws.VerdictsIff | main/GuestTagManager.cpp:500-533 | exactly which answer a tap gets, the earliest reason first |
| GuestLaws.OneCardPerRecord | main/GuestTagManager.cpp:278-289 | no two UIDs ever find the same record |
| GuestLaws.CardIff | main/GuestTagManager.cpp:282-285 | a record is bound to exactly the bytes of one UID |
| GuestTheorems.ParsesIff | main/GuestTagManager.cpp:465-498 | a payload parses exactly when it is some plaintext with the record's tag id sealed under the record's key for this UID |
| GuestTheorems.BuiltParses | main/GuestTagManager.cpp:422-463 | a built payload parses for the card it was built for |
| GuestTheorems.CommittedIsFound | main/GuestTagManager.cpp:278-351 | after a successful commit the card's UID finds the committed record, whatever else is in the table |
| GuestTheorems.OtherCardKept | main/GuestTagManager.cpp:322-351 | teaching one card leaves what another card's UID finds unchanged |
| GuestLaws.RevokeEffect | main/GuestTagManager.cpp:376-398 | revoking an id takes its first slot out and moves those behind forward; with unique ids none has it afterwards |
| GuestLaws.RevokedIsUnknown | main/GuestTagManager.cpp:376-398 | a tap of the revoked card is unknown, unless another slot is bound to it |
| GuestLaws.RevokeSparesOthers | main/GuestTagManager.cpp:376-398 | every other card's taps are decided as before |
| GuestLaws.RevokeUnknown | main/GuestTagManager.cpp:376-398 | an id that is not there changes nothing and is reported |
| GuestLaws.CommitEffect | main/GuestTagManager.cpp:322-351 | a known card is re-taught in its slot, a new one appended while there is room for sixteen, and exactly the appended ones announced |
| GuestLaws.EnableEffect | main/GuestTagManager.cpp:408-420 | disabling a card turns its taps away, enabling it does not, and no other card notices |
| GuestLaws.GlobalEffect | main/GuestTagManager.cpp:232-241 | with guest access off every known card is disabled |
| GuestLaws.DefaultEffect | main/GuestTagManager.cpp:243-252 | the default is what was asked for up to ten years |
| GuestLaws.UseEffect | main/GuestTagManager.cpp:535-548 | a use is stamped and counted, modulo 2^32, on the first record with the id alone |
| GuestLaws.MintEffect | main/GuestTagManager.cpp:291-320 | what a mint gives, and that a requested window is kept |
| GuestLaws.PlaintextLayout | main/GuestTagManager.cpp:431-436 | the sealed plaintext, byte by byte |
| GuestLaws.PayloadLayout | main/GuestTagManager.cpp:422-463 | the card payload, byte by byte |
| GuestLaws.BlobLayout | main/GuestTagManager.cpp:202-230 | the NVS blob, field by field |
| GuestLaws.ForeignBlob | main/GuestTagManager.cpp:156-200 | an unknown version is an empty table, and a count beyond table or blob is cut |
| GuestLaws.RecordDefaults | main/GuestTagManager.cpp:614-632 | what a record document without its optional members means |
| GuestLaws.TableLookedAt | main/MqttManager.cpp:1189-1197 | a node looks at the list of any document but its own |
| GuestTheorems.UseChangesNothing | main/GuestTagManager.cpp:535-548 | recording a use changes no later verdict |
| GuestTheorems.LoadsBack | main/GuestTagManager.cpp:142-230 | the stored blob of a table loads back to exactly that table |
| GuestTheorems.StepKeeps | main/GuestTagManager.cpp:232-421 | every operation keeps capacity, the ten-year cap and a loadable blob |
| GuestTheorems.RunInv | main/GuestTagManager.cpp:142-421 | so does every run from an empty device, reboots included |
| GuestTheorems.SuccessIsDurable | main/GuestTagManager.cpp:202-421 | after any call that reports success the next boot loads exactly the table in RAM |
| GuestTheorems.FailedCommit | main/GuestTagManager.cpp:322-351 | a failed commit leaves the old table exactly when it was not replacing a card's slot by a different record, and announces nothing |
| GuestTheorems.FailedCommitDurable | main/GuestTagManager.cpp:322-351 | exactly when RAM and flash still agree after a failed commit: a replacement when the set worked or changed nothing, an append when the table was full or the set failed |
| GuestTheorems.FailedReteach | main/GuestTagManager.cpp:322-351 | a concrete failed re-teach that leaves the new record in RAM |
| GuestTheorems.RefusedCardComesBack | main/GuestTagManager.cpp:322-351 | a concrete refused card that the next boot knows |
| GuestTheorems.WindowNeverWraps | main/GuestTagManager.cpp:291-320 | in a reachable state a default window does not wrap for now up to 3979607295, which is the exact bound at the longest default |
| GuestTheorems.ImportIdempotent | main/GuestTagManager.cpp:353-374 | importing any list twice equals once, with duplicate ids and a table that fills midway |
| GuestTheorems.AllTakenIff | main/GuestTagManager.cpp:353-374 | every import of a list succeeds exactly when the table ends up with every listed id |
| GuestTheorems.ImportAllFacts | main/MqttManager.cpp:1198-1224 | no tag id disappears or moves, capacity holds, every slot holds the last listed record of its id, and each listed id is present unless the table is full |
| GuestTheorems.ImportOneSettles | main/GuestTagManager.cpp:353-374 | one import keeps every slot settled by the last record of its id |
| GuestTheorems.ImportOneCovers | main/GuestTagManager.cpp:353-374 | one import keeps every listed id present unless the table is full |
| GuestTheorems.NoGrowth | main/GuestTagManager.cpp:353-374 | with every listed id present, or no room, an import adds no slot |
| GuestTheorems.ImportIsQuiet | main/GuestTagManager.cpp:353-374 | an import never announces a change |
| GuestTheorems.SyncRoundTrip | main/GuestTagManager.cpp:550-632 | a record survives its sync document exactly when the token's hex parser admits 16 bytes |
| GuestTheorems.SyncImportsNothing | main/GuestTagManager.cpp:602-612 | with the firmware's ten-byte cap no document ever yields a record |
| GuestTags.GuestTagManager.constructor | main/GuestTagManager.cpp:142-200 | boot: the stored table, or an empty one for a missing or unknown blob; spare slots zero |
| GuestTags.GuestTagManager.SaveTable | main/GuestTagManager.cpp:202-230 | the blob holds the table padded with zeros; success exactly when set and commit did |
| GuestTags.GuestTagManager.FindByUid | main/GuestTagManager.cpp:278-289 | the first slot bound to that UID |
| GuestTags.GuestTagManager.FindByTag | main/GuestTagManager.cpp:265-276 | the first slot with that tag id |
| GuestTags.GuestTagManager.CommitTag | main/GuestTagManager.cpp:322-351 | replace the card's slot, or append, or refuse when full; a failed append is taken back |
| GuestTags.GuestTagManager.ImportTag | main/GuestTagManager.cpp:353-374 | replace the id's slot, or append, or refuse when full, never announcing |
| GuestTags.GuestTagManager.CloseGap | main/GuestTagManager.cpp:376-398 | the records behind the slot move one forward, in place |
| GuestTags.GuestTagManager.RevokeTag | main/GuestTagManager.cpp:376-398 | the id's record is gone, the order of the others kept, the freed slot zero |
| GuestTags.GuestTagManager.SetTagEnabled | main/GuestTagManager.cpp:408-420 | the flag of the first record with that id, saved |
| GuestTags.GuestTagManager.SetGlobalEnabled | main/GuestTagManager.cpp:232-241 | the flag, saved, announced only on success |
| GuestTags.GuestTagManager.SetDefaultValiditySeconds | main/GuestTagManager.cpp:243-252 | the default capped at ten years, saved |
| GuestTags.GuestTagManager.MarkTagUsed | main/GuestTagManager.cpp:535-548 | last use and a wrapping count of the first record with that id |
| GuestTags.GuestTagManager.MintTag | main/GuestTagManager.cpp:291-320 | an unbound record with the default window when none was asked for and a clock exists |
| GuestTags.GuestTagManager.VerifyTap | main/GuestTagManager.cpp:500-533 | the verdict of the source's checks in their order, with the record they were made on |
| GuestTags.HandleGuestTable | main/MqttManager.cpp:1178-1225 | nothing happens for a document of one's own or without a list; otherwise the table becomes the fold of all items under any luck of their saves, imported counts the imports that succeeded, skipped the others, and the status is published exactly when there was one |
| GuestTags.EachKeeps | main/MqttManager.cpp:1198-1224 | whatever saves fail, no tag id disappears or moves, capacity holds and no change is announced |
| GuestTags.EachIsAll | main/MqttManager.cpp:1198-1224 | with every save succeeding the fold is that of the well-formed records, and the count that of the imports that found their id or room |
| NtagCardIo.ReadPages | main/NtagCardIo.cpp:119-137 | true only with exactly the bytes the card answers from that page on, a partial last chunk included: the addressed bytes for a range on the card, rolled over past its end; always true over a steady link for whole pages on the card |
| NtagCardIo.WritePages | main/NtagCardIo.cpp:139-163 | true only when a read then finds the data although each write may silently fail, which for a range on the card means it holds the data; bytes no write addresses never change; always true over a steady link for whole pages on the card |
| NtagCardIo.ReadFourPages | main/NtagCardIo.cpp:21-51 | sixteen honest bytes or a refusal |
| NtagCardIo.RolledInRange | main/NtagCardIo.cpp:21-51 | for a range on the card a read finds exactly the addressed bytes |
| NtagCardIo.AnswerIsRolled | main/NtagCardIo.cpp:119-137 | the part of an answer that is kept is the next stretch of the read, roll-over and wrapping page numbers included |
| NtagCardIo.AddressedIff | main/NtagCardIo.cpp:53-63 | the bytes the page writes address are exactly those of the range |
| NtagCardIo.WriteOnePage | main/NtagCardIo.cpp:53-63 | a write touches its own page only, and over a steady link puts the data there |
| NtagCardIo.ReadChunk | main/NtagCardIo.cpp:119-137 | each chunk extends the bytes already read |
| NfcTeaching.NfcManager.HandleGuestWrite | main/NfcManager.cpp:648-720 | the record is committed only once the card verifiably carries its payload, success only once it is committed, the arming cleared either way; over a steady link the exact condition for success |
| NfcTeaching.NfcManager.ReadGuestPayload | main/NfcManager.cpp:592-607 | the payload area as the card answers it, or nothing |
| NfcTeaching.NfcManager.HandleGuestTap | main/NfcManager.cpp:616-639 | the verdict on the card's bytes; a verdict on a known card is announced with its record, only an accepted tap changes the table, by its use count, and every other tap goes on as a generic one |
| NfcTeaching.NfcManager.ArmGuestWrite | main/NfcManager.cpp:722-758 | arms a free desk with its deadline, refuses a taken one or a reader that cannot write |
| NfcTeaching.NfcManager.TakeArmedGuestWrite | main/NfcManager.cpp:522-539 | takes the arming, once |
| NfcTeaching.NfcManager.CancelGuestWrite | main/NfcManager.cpp:760-776 | withdraws the arming and tells whether there was one |
| NfcTeaching.NfcManager.ClearArmedGuestWrite | main/NfcManager.cpp:541-554 | clears whatever is armed and records the result |
| NfcTeaching.NfcManager.ExpireGuestWrite | main/NfcManager.cpp:276-288 | withdraws an overdue arming |
| TeachRuns.Conservation | main/NfcManager.cpp:522-776 | over all interleavings, arms that returned true = taken + cancelled + expired + discarded + one if armed |
| TeachRuns.RunInv | main/NfcManager.cpp:522-776 | the armed intent is the only waiting one, and only taken intents reach a card, at most once |
| TeachRuns.FateIsFinal | main/NfcManager.cpp:522-776 | once decided, an intent's fate never changes |
| TeachRuns.OneCardPerIntent | main/NfcManager.cpp:648-720 | each intent writes at most one card, and only if taken |
| TeachRuns.CancelledNeverWrites | main/NfcManager.cpp:760-776 | a cancel that returned true means that intent never writes a card |
| TeachRuns.DiscardedIff | main/NfcManager.cpp:541-554 | an armed intent is discarded exactly by the clear of another intent's finishing write, whose result then shows |
| TeachRuns.TakenIff | main/NfcManager.cpp:522-539 | a waiting intent is taken exactly by the next card seen, which is then its write |
| TeachRuns.ExpiredOrWithdrawn | main/NfcManager.cpp:276-288 | it expires exactly by a poll past its deadline and is withdrawn exactly by a cancel, and the result says which |
| TeachRuns.ArmedIsTaken | main/NfcManager.cpp:522-776 | what was armed is what is taken, once, and a second arming is refused until then |
| TeachRuns.IdleCancel | main/NfcManager.cpp:760-776 | a cancel with nothing armed says so and keeps the last result |
| TeachRuns.DiscardedRun | main/NfcManager.cpp:541-554 | a concrete run in which an intent armed during a write is discarded |
| TeachRuns.HoldTime | main/NfcManager.cpp:722-758 | without a clock wrap an arming is overdue exactly after its hold time, 60 seconds by default |
| CredentialCodec.RoundTrip | main/ReaderDataManager.cpp:17-202 | unpacking a packed store returns identity, issuers, endpoints and labels unchanged exactly when every counter is in 0..255 and every key type non-negative |
| CredentialCodec.UnknownKeysIgnored | main/ReaderDataManager.cpp:167-202 | an unknown top-level key anywhere in the document changes nothing |
| CredentialCodec.EndpointBack | main/ReaderDataManager.cpp:55-98 | what the wire keeps of any endpoint: its counter modulo 256, and defaults for negative integers |
| CredentialCodec.IssuerBack | main/ReaderDataManager.cpp:100-133 | an issuer comes back with its keys and each endpoint as the wire keeps it |
| CredentialCodec.EndpointFinds | main/ReaderDataManager.cpp:55-76 | the members of a stored endpoint, by name |
| CredentialCodec.IssuerStored | main/ReaderDataManager.cpp:100-114 | the members of a stored issuer, by name |
| CredentialCodec.IdentityStored | main/ReaderDataManager.cpp:135-150 | the members of a stored reader identity, by name |
| CredentialCodec.BytesStored | main/ReaderDataManager.cpp:17-25 | a stored byte string is an array of one integer per byte |
| CredentialCodec.IntStored | main/ReaderDataManager.cpp:55-76 | a stored integer keeps its value and says its sign by its kind |
| CredentialCodec.Defaults | main/ReaderDataManager.cpp:167-202 | what a document of the wrong type or without members loads as |
| CredentialCodec.LabelsBack | main/ReaderDataManager.cpp:189-201 | labels come back in any walk order |
| CredentialStore.LabelKeyInjective | main/ReaderDataManager.cpp:416-429 | two issuers never share a label key |
| CredentialStore.AddKeepsUnique | main/ReaderDataManager.cpp:520-538 | adding keeps ids distinct and the id present |
| NvsCredentials.PackByteArray | main/ReaderDataManager.cpp:17-25 | the loop packs one integer per byte |
| NvsCredentials.UnpackByteArray | main/ReaderDataManager.cpp:27-39 | the loop unpacks the array under a key, or the default |
| NvsCredentials.ToMap | main/ReaderDataManager.cpp:41-53 | the map agrees with the entry list, later entries winning |
| NvsCredentials.PackIssuerObject | main/ReaderDataManager.cpp:100-114 | the loop packs an issuer with all its endpoints |
| NvsCredentials.UnpackIssuerObject | main/ReaderDataManager.cpp:116-133 | the loop unpacks an issuer, empty for anything that is not a map |
| NvsCredentials.PackStore | main/ReaderDataManager.cpp:135-165 | the loops pack the whole store |
| NvsCredentials.UnpackStore | main/ReaderDataManager.cpp:167-202 | the loops unpack the whole store, members of the wrong type left empty |
| NvsCredentials.NvsCredentialStore.SaveStore | main/ReaderDataManager.cpp:254-289 | the stored document is the packed store |
| NvsCredentials.NvsCredentialStore.LoadStore | main/ReaderDataManager.cpp:352-401 | the store is what the stored document unpacks to, empty when there is none, and unchanged when it cannot be read or parsed |
| NvsCredentials.NvsCredentialStore.DeleteAllReaderData | main/ReaderDataManager.cpp:486-518 | RAM is empty whatever happens, NVS exactly when the erase worked |
| NvsCredentials.NvsCredentialStore.AddIssuerIfNotExists | main/ReaderDataManager.cpp:520-538 | appended exactly when the id is new; nothing else changes |
| NvsCredentials.NvsCredentialStore.RemoveIssuerIfExists | main/ReaderDataManager.cpp:540-560 | the first issuer with that id and its label are gone; nothing else changes |
| IssuerReconcile.Reconciles | main/HomeKitLock.cpp:371-415 | with a snapshot sweep the ids left are exactly the current controllers', survivors keep keys, endpoints and place, removed issuers lose their labels and no other label changes |
| IssuerReconcile.ReconcileIdempotent | main/HomeKitLock.cpp:371-415 | a second call changes nothing |
| IssuerReconcile.ReconciledIs | main/HomeKitLock.cpp:371-415 | the outcome in closed form: survivors of the enrolled list, labels without the stale ones |
| IssuerReconcile.ReconciledIds | main/HomeKitLock.cpp:371-415 | an id is left exactly when a current controller hashes to it |
| IssuerReconcile.SweptFrom | main/HomeKitLock.cpp:396-409 | sweeping a snapshot leaves exactly the survivors and drops exactly the stale labels |
| IssuerReconcile.EnrolledFacts | main/HomeKitLock.cpp:381-391 | enrolling only appends, covers every controller, and appends only current ids |
| IssuerReconcile.LiveSweepIff | main/HomeKitLock.cpp:396-409 | the sweep over the live span equals the promised one exactly when no two stale issuers are adjacent |
| IssuerReconcile.CompiledIff | main/HomeKitLock.cpp:371-415 | as compiled, the callback leaves the whole store as promised, labels included, exactly when no two stale issuers are adjacent in the enrolled list |
| IssuerReconcile.AdjacentStaleSkipped | main/HomeKitLock.cpp:396-409 | a concrete list of two stale issuers of which the live sweep keeps the second |
| IssuerReconcile.EnrolControllers | main/HomeKitLock.cpp:381-391 | adds the missing issuers, tells exactly whether any was added, and collects exactly the current ids |
| IssuerReconcile.SweepCopy | main/HomeKitLock.cpp:396-409 | the loop over a copy performs the promised sweep and tells exactly whether it removed anything |
| IssuerReconcile.SweepLive | main/HomeKitLock.cpp:396-409 | the loop over the list being erased skips the issuer behind each erased one, and drops exactly the labels of the erased ones |
| IssuerReconcile.ControllerCallback | main/HomeKitLock.cpp:371-415 | the promised callback: reconciled with an admin present and written to NVS exactly when that changed the store; wiped, RAM and NVS, without one |
| IssuerReconcile.ControllerCallbackAsCompiled | main/HomeKitLock.cpp:371-415 | the whole store the compiled loop leaves, labels included, and exactly when it is written |
| ConfigTheorems.GetThenPut | main/ConfigManager.cpp:728-967 | putting back the served document changes no field, secrets included, exactly when no plain string holds a NUL |
| ConfigTheorems.NulIsLost | main/ConfigManager.cpp:917-922 | a concrete plain string that comes back cut at its NUL |
| ConfigTheorems.FieldBack | main/ConfigManager.cpp:766-860 | per field type: its own served value assigns it back, unless truncated |
| ConfigTheorems.AbsentKeysUnchanged | main/ConfigManager.cpp:762-865 | no update adds, removes or retypes a field, and fields whose key is absent never change |
| ConfigTheorems.SecretsMasked | main/ConfigManager.cpp:917-922 | the served document does not depend on a secret's value |
| ConfigLaws.TextPut | main/ConfigManager.cpp:772-784 | a text field takes any text but, if secret, the mask |
| ConfigLaws.FlagPut | main/ConfigManager.cpp:785-792 | a flag takes a boolean, or a number as whether it is not zero |
| ConfigLaws.NumberPut | main/ConfigManager.cpp:793-802 | a number is taken exactly when in range of its width |
| ConfigLaws.RawPut | main/ConfigManager.cpp:803-827 | an array of the field's length is taken up to its first non-number, any other not at all |
| ConfigLaws.ColorsPut | main/ConfigManager.cpp:828-846 | the first well-formed pair of a key is taken, and keys without one are gone |
| ConfigLaws.StatesPut | main/ConfigManager.cpp:847-859 | the last numeric member of a name is taken, and names without one are gone |
| ConfigLaws.Served | main/ConfigManager.cpp:910-936 | how texts, flags, numbers and arrays are served |
| ConfigLaws.ServedMaps | main/ConfigManager.cpp:937-955 | how the two kinds of map are served: every entry, and nothing else |
| ConfigLaws.SecretRule | main/include/config.hpp:20-51 | the mask, and which keys are secret |
| ConfigTheorems.AppliedPrefix | main/ConfigManager.cpp:762-865 | applying a prefix of the served document assigns exactly the keys it names |
| ConfigTheorems.AppliedOnce | main/ConfigManager.cpp:762-865 | with distinct keys each named field is assigned once, from the value it had before |
| Config.AssignArray | main/ConfigManager.cpp:803-827 | elements are overwritten in place up to the first non-number |
| Config.ReadColorPairs | main/ConfigManager.cpp:828-846 | well-formed pairs, the first value of a key kept |
| Config.ReadStateFields | main/ConfigManager.cpp:847-859 | numeric members, the last value of a key kept |
| Config.ConfigManager.SerializeToJson | main/ConfigManager.cpp:887-967 | the served document of the configuration |
| Config.ConfigManager.UpdateFromJson | main/ConfigManager.cpp:728-868 | the updated configuration and, for an object, the document served from it; anything else changes nothing |
| Config.EchoBack | main/ConfigManager.cpp:728-967 | echoing the served document back moves nothing and serves the same document again |
| Provisioning.OnlyTheLatestOnce | main/ProvisioningManager.cpp:66-111 | over any run with reboots and persisting writes, a validation succeeds only with the latest issued code, before its expiry, and only if none has succeeded since |
| Provisioning.SingleUse | main/ProvisioningManager.cpp:89-111 | between two successful validations a code was issued, if the first one's own save landed, whatever any other save did |
| Provisioning.ReuseAfterLostWrite | main/ProvisioningManager.cpp:107-142 | a consumed code works again after a reboot exactly when the last of the three writes did not land and the new uptime is not past the old expiry |
| Provisioning.ReusedCode | main/ProvisioningManager.cpp:107-142 | a concrete run in which a consumed code is accepted again after a reboot |
| Provisioning.TornIssueIff | main/ProvisioningManager.cpp:66-142 | which codes a torn issue leaves good after a reboot: those of flash with no write landed, otherwise at most the new one, and only if all landed or flash still said unused |
| Provisioning.Spent | main/ProvisioningManager.cpp:89-163 | until the next issue a consumed code stays consumed in RAM and on flash |
| Provisioning.WrongGuess | main/ProvisioningManager.cpp:101-105 | a wrong guess is refused and consumes nothing |
| Provisioning.IssuedIsValid | main/ProvisioningManager.cpp:66-111 | after an issue exactly that code is good, to the end of its time and no longer |
| Provisioning.BootReads | main/ProvisioningManager.cpp:144-163 | what boot makes of each of the three values, present or missing |
| Provisioning.NoHashNoSuccess | main/ProvisioningManager.cpp:89-93 | without a stored hash no code is good |
| Provisioning.AttemptConsumes | main/ProvisioningManager.cpp:89-111 | a success, or any attempt after its time, leaves nothing good until the next issue |
| Provisioning.RunTracks | main/ProvisioningManager.cpp:66-163 | in every state the outstanding code is the latest issued one, unused since |
| Provisioning.FourBytesPerGlyph | main/ProvisioningManager.cpp:52-60 | every glyph is drawn by exactly four of the 256 byte values |
| Provisioning.GlyphOf | main/ProvisioningManager.cpp:52-60 | which glyph each byte gives, and from which on none |
| Provisioning.DrawCode | main/ProvisioningManager.cpp:49-64 | the rejection loop yields the first eight glyphs of the random stream |
| Provisioning.ProvisioningManager.constructor | main/ProvisioningManager.cpp:144-163 | boot: the stored record, or a used blank |
| Provisioning.ProvisioningManager.IssueCode | main/ProvisioningManager.cpp:66-87 | the new record in RAM, the code only when it was persisted |
| Provisioning.ProvisioningManager.PersistRecord | main/ProvisioningManager.cpp:118-142 | hash, expiry and flag land in that order up to the fault; success exactly when all and the commit did |
| Provisioning.ProvisioningManager.ValidateAndConsume | main/ProvisioningManager.cpp:89-111 | accepts exactly an outstanding, unexpired, matching code, which is then used |

## Left out

- The web server, MQTT client, Wi-Fi, mDNS, TLS, HomeSpan, PN532 transport, OTA, UI and DNS server: I/O around the modelled state.
- Byte-level cJSON, MessagePack and alpaca formats: documents are trees and events are typed values. Printing then parsing a backup's payload document is assumed to give it back.
- Concurrency inside `setTargetState`, which several tasks call without a lock: each handler call is one step. The three FIFOs allow every order the single default event loop has, and more.
- The 100 ms wait on a full lock queue: a drop is a step that is enabled when the queue is full, and the convergence results exclude it.
- LockRuns.NoPinNeverMoves: says nothing of overrides and outside updates, which set the current state by definition.
- The electrical state of a pin across a racing release: lease compatibility only.
- Backup.BackupManager.CreateBackup: backups without credentials only; its events and audit records are not modelled, and the settings are constant while it works.
- Backup.RestoreManager.RestoreBlob: the optional credentials step (reader store and HomeKit pairing state) is not modelled, nor are events and audit records.
- Backup.RestoreManager.InstallPayload: saving the two configurations to NVS after their update is not part of it.
- BackupTheorems.SettingsRestored: assumes the pasted, unescaped text parses to what it spells; what other text does is whatever the parser makes of it.
- BackupTheorems.UnchangedIff: takes a generated key pair to have a private half.
- BackupTheorems.BackupThenRestore: needs a target without an identity, as the code does; `CompletesIff` is the exact condition.
- BackupTheorems.CompletesIff: the household's own save result is not part of it, because the restore does not look at it.
- Decrypting under a different recovery secret: no separation between distinct AEAD keys is assumed, so nothing is claimed.
- CommandReplay.MqttManager.HandleSecureCommand: the MAC is any function of fields, action and key; its canonical string and HMAC (section 2 of RFC 2104) are not modelled.
- IssuerReconcile.ControllerCallbackAsCompiled: issuer ids are distinct to begin with, and issuers moved from behind the shrunken list are taken to match no controller and no stored issuer.
- UID uniqueness after imports: an import matches by tag id only.
- GuestTags.HandleGuestTable: an item printed and parsed again is taken to be the same item.
- NfcTeaching.NfcManager.HandleGuestWrite: card identification is a parameter, and the GUEST_STATE_CHANGED it posts itself after a success is not counted in `published`.
- NfcTeaching.NfcManager.HandleGuestTap: what becomes of a generic tag afterwards.
- TeachRuns.HoldTime: assumes the millisecond clock does not pass 2^32 within the hold time.
- ConfigTheorems.GetThenPut: colour keys fit an int, keys of colour and state maps hold no NUL, and JSON text is a C string.
- Saving the configuration to NVS, which follows an update elsewhere.
- Provisioning.OnlyTheLatestOnce: assumes every save lands; `TornIssueIff` and `ReuseAfterLostWrite` say what a torn one can do.
- Household and provisioning saves stop after a prefix of their writes; NVS itself is taken to apply writes in order.
- CredentialCodec.RoundTrip: arrays of bytes hold integers; the default endpoint a decode starts from is itself portable.
- Audit slots: the record counter is never advanced, so a reload round trip is not true of the code.
- Freshness of precomputed authentication sessions.
