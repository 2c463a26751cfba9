# Verified models of a Messenger client

A client library keeps a few small stateful cores that have to stay right while writes fail, contexts
are cancelled and other goroutines run in between. This project models those cores in Dafny and proves
what they guarantee. `dafny verify dfyconfig.toml` checks all of it.

| files | what they model |
|---|---|
| `DeviceContent`, `DeviceRuns`, `DeviceStore` | the write-through device store: snapshot, mutate in place, write, restore on failure, over whole runs with reloads |
| `PreKeys` | the pre-key allocator: batches, marks, the 32-bit ID counter |
| `AddressMigration` | the re-keying of one user's entries, which inserts into a map while ranging over it |
| `LegacyImport`, `LegacyRoundTrip`, `StoredDocuments` | the importer of the older stored format, writing it by hand and reading it back, opening a store, and documents that lead to failing properties |
| `Text`, `Cookies` | printing and parsing of cookie strings |
| `Storage`, `Profiles` | the in-memory stores, and renaming a profile or saving an authentication snapshot over them, with rollback |
| `AuthRefresh` | refreshing the authentication of a connected client: jar, client and saved secrets together |
| `EventFanout`, `EventSession`, `SessionManager` | a session's bounded drop-oldest fan-out, its close, and the registry of sessions |
| `EngineEvents`, `Engine` | the engine's event channel with concurrent emits and its close |
| `MediaStream`, `MediaDownload` | receiving media through a pipe while it is checked, and sending it in chunks |
| `LimitedReads` | the reader that cuts a download off at a limit |
| `EventQueue` | the Node SDK's asynchronous event queue |
| `Basics` | options, results, 32-bit sums, ordered lists |

How the models are built:

- Objects that the program updates in place are classes with the same fields, and every method is
  proved against a specification function or a step machine, about which the properties are then
  proved for all inputs, runs and interleavings. Ghost fields hold what only the proofs need: the
  last durable content, the trail of states a store went through, the execution so far.
- What a method's specification function computes is also stated without it: on the fields, in the texts
  themselves, or by a round trip.
- A failing environment is a parameter: which writes fail (`Env`), which store calls fail (the script
  of a `Context`), which chunk, read or send comes back how. Each theorem holds for every such script,
  so a cancellation may come at any call, or even only for some.
- Concurrency is a machine of atomic steps. A `select` with a `default` case is one step; consumers,
  other emits and the closed flag may come between any two. The session's publish is exclusive, the
  engine's emits are not, and the two machines guarantee accordingly different things. `Session` and
  `Engine` carry the execution of their machine that their calls amount to.
- Go's map iteration order is arbitrary in every loop over a map, and so is which of the entries
  inserted meanwhile a range visits.
- 32-bit and 64-bit wrap-around is written out (`Add32`, `Add64`); lengths and drop counts are unbounded.

Where a property does not hold for all inputs, the code is kept as it is and the exact condition is
proved; where that is more than a test of the input at hand, a lemma also gives an input that fails:

- The pre-key counter wraps at the end of its 32-bit range. A legacy document from which it then repeats
  a stored ID is `END_OF_RANGE` (`ImportedStoreRepeatsAnID`); it does so exactly when the counter, counted
  on, reaches a stored ID (`StoredIDGeneratedExactlyWhenReached`). The allocator's invariant is lost
  earlier: it survives a call exactly when the counter does not reach the end
  (`AllocatorKeptExactlyWhenItFits`, and `ImportedAllocator` for imports).
- Loading accepts uploaded IDs that are not stored. A batch then holds a key that counts as uploaded, and
  asking again gives another one, exactly when an uploaded ID is among those it generates
  (`NoneUploadedExactlyWhenNoneAhead`, `RepeatedBatch`); `AHEAD` is such a document.
- Loading also accepts stored IDs at or above the counter. A batch is in order, and later calls hand out
  higher IDs, exactly when no ID still to be handed out is one of those
  (`AscendsExactlyWhenAvailableBelow`, `HandedOutIncreaseExactlyWhenAvailableBelow`); `HIGH` is a document
  with one.
- The counter of an import depends on the order of the document's keys exactly when one of them, but not
  every one, has the last 32-bit ID (`OrderIrrelevantExactlyWhenNoLastID`); `BOTH_ENDS` is such a document
  (`CounterDependsOnOrder`).
- The address migration depends on the iteration order when one user's addresses are also the other's
  (`CreatedEntryMovesAgain`, `EntryOverwrittenBeforeItMoves`), and only then
  (`OrderIrrelevantExactlyWhenClean`).
- A failed write restores the content exactly when the counter is not zero
  (`FailedWriteLeavesContent`); a zero counter, which the same document leads to, comes back as one
  (`ImportedStoreReachesZero`).
- The engine can drop the newest event, whatever its buffer (`NewestMayBeLost`): exactly when the sends
  of other emits, less what was taken meanwhile, fill the buffer between two steps of its own
  (`EventLostExactlyWhenUndercut`). An emit that runs alone never loses its event (`LoneEmitIsEnqueued`).
- A cookie string carries exactly the maps of `RoundTripExactlyWhenPrintable`.
- The legacy format holds a content without loss exactly under the condition of `RoundTripExactlyWhenHeld`.
- The limited reader panics on every read exactly when the limit is the largest 64-bit integer.
- A late read of the event queue sees an error exactly when the error is truthy
  (`LateReadsSeeTruthyErrorsOnly`).
- A failed refresh leaves client and saved secrets as they were, but the jar only up to what page loads do
  to it, since undoing a refresh loads a page too. The documentation promises that failed refreshes restore
  the previous live state (docs/authentication.md:72); they do exactly when those loads leave the cookies
  alone (`JarIsKeptExactlyWhenLoadsAreHarmless`, with `UndoneWithOtherCookies` for one that does not) and
  undoing does not itself fail.

## Model

| member | source | states |
|---|---|---|
| `DeviceRuns.MemoryMatchesDurableState` | internal/meta/device_state.go:227-255 | Over every run of mutations, one-key calls and reloads, with any call cancelled and any write failing, the store stays well formed and what is in memory is what the last accepted state loads as |
| `DeviceRuns.GeneratedIDsNeverRepeat` | internal/meta/device_store.go:258-292 | Over a whole run from any loaded store, with failed writes, removals, device deletion and crash-and-reload, the pre-key IDs generated by successful calls strictly increase, so none is generated twice, as long as the 32-bit counter does not reach its end |
| `DeviceRuns.AllocatorStaysSound` | internal/meta/device_store.go:258-339 | Over every run that does not reach the counter's end, each of these survives if it held before: stored and uploaded IDs lie below the counter; IDs still to be handed out do; uploaded IDs are stored; everything up to a mark is uploaded |
| `DeviceRuns.HandedOutIDsIncrease` | internal/meta/device_store.go:294-306 | Successful one-key calls return strictly increasing IDs over a whole run, whatever happens between them and whatever IDs count as uploaded, from any store whose IDs still to be handed out lie below the counter |
| `DeviceRuns.HandedOutIncreaseExactlyWhenAvailableBelow` | internal/meta/device_store.go:258-306 | The IDs handed out increase in every run that does not reach the counter's end if and only if no stored ID that is not uploaded lies at or above the counter |
| `DeviceRuns.LaterIDMayBeLower` | internal/meta/device_store.go:258-306 | From any store with such an ID, a mark and two one-key calls hand out a lower ID after a higher one |
| `DeviceRuns.OneKeyCallUploadsOneKey` | internal/meta/device_store.go:294-306 | Although it marks everything up to an ID, a successful one-key call adds exactly the ID it returns to the uploaded ones; that ID was not uploaded before if and only if a stored one was available or the counter is not on an uploaded ID |
| `DeviceRuns.OperationsKeepWellFormed` | internal/meta/device_store.go:112-356 | Every mutation keeps the invariant under which a snapshot can be restored: a restorable header and every pre-key stored under its own ID |
| `DeviceRuns.SnapshotAlwaysLoads` | internal/meta/device_state.go:269-388 | A snapshot of a well-formed store, in whatever order its lists come, passes every loading check and loads as the content it was taken from; so the rollback whose error is dropped cannot fail |
| `DeviceRuns.LoadingEstablishesWellFormed` | internal/meta/device_state.go:317-388 | Whatever document was loaded, what loading accepts is well formed |
| `DeviceRuns.FailedWriteLeavesContent` | internal/meta/device_state.go:227-255 | A call whose write fails reports it, changes nothing durable, and leaves the content as it was exactly when the stored counter is not zero (a zero counter is restored as one) |
| `DeviceRuns.StoredKeysStay` | internal/meta/device_store.go:258-339 | While the counter does not reach its end, a pre-key stored below it stays what it is through any run, failed writes and reloads included, until a call removes it or deletes the device; whatever IDs count as uploaded |
| `DeviceRuns.WrappedCounterIsNotRestored` | internal/meta/device_state.go:381-383 | From the end of the range one generated key wraps the counter to zero, and the next failed write restores it as one |
| `DeviceContent.SnapshotDecodes` | internal/meta/device_state.go:303-313 | Any listing of the maps that a snapshot may produce decodes to the same maps and sets |
| `DeviceContent.AddKeysLookup` | internal/meta/device_state.go:371-374 | Inserting a list of keys one by one: the domain is the old one plus the listed IDs, and a listed ID holds its last listing |
| `DeviceContent.LoadsExactlyWhenSound` | internal/meta/device_state.go:317-369 | A document loads if and only if its registration ID is from 1 to 16380, none of its three keys is zero, its secret has 32 bytes, it has a UUID, and UUID, JID, LID and account parse |
| `DeviceContent.LoadedFields` | internal/meta/device_state.go:332-388 | A loaded store holds, field by field, what the document has: keys, numbers and names as they are, texts in canonical form, the listed keys under their IDs, and a counter of zero as one |
| `DeviceStoreModel.DeviceStore.constructor` | internal/meta/device_store.go:35-81 | A new store is well formed, empty, with the counter at one |
| `DeviceStoreModel.DeviceStore.Restored` | internal/meta/device_state.go:78-82 | The store that restoring gives when it succeeds, well formed and holding what the document decodes to, or the error it gives |
| `DeviceStoreModel.RangeAndDelete` | internal/meta/device_store.go:147-152 | Deleting while ranging removes exactly the entries whose address starts with the user and a colon |
| `DeviceStoreModel.DeviceStore.SnapshotLocked` | internal/meta/device_state.go:269-315 | The flattened state lists each stored key and uploaded ID and repeats the rest, for every iteration order |
| `DeviceStoreModel.DeviceStore.RestoreLocked` | internal/meta/device_state.go:317-388 | Either every check passes and the whole content is the decoded one, or the first failing check is reported and nothing changes |
| `DeviceStoreModel.DeviceStore.PersistLocked` | internal/meta/device_state.go:227-241 | Writes through, or restores the content from before the mutation, whose restore never fails |
| `DeviceStoreModel.DeviceStore.PutIdentity` | internal/meta/device_store.go:129-134 | On success the identity is stored and written; nothing else changes, and a failed call leaves both copies as they were, up to a counter of zero |
| `DeviceStoreModel.DeviceStore.DeleteIdentity` | internal/meta/device_store.go:136-141 | On success one identity is gone, in memory and written; nothing else changes, and a failed call leaves both copies as they were, up to a counter of zero |
| `DeviceStoreModel.DeviceStore.DeleteAllIdentities` | internal/meta/device_store.go:143-154 | On success exactly the identities whose address starts with the user and a colon are gone, deleted while ranging, and that is written; nothing else changes, and a failed call leaves both copies as they were, up to a counter of zero |
| `DeviceStoreModel.DeviceStore.PutManySessions` | internal/meta/device_store.go:203-212 | On success every given session is stored, replacing what was there, and written; nothing else changes, and a failed call leaves both copies as they were, up to a counter of zero |
| `DeviceStoreModel.DeviceStore.PutSession` | internal/meta/device_store.go:199-201 | On success one session is stored, as a call for many, and written; nothing else changes, and a failed call leaves both copies as they were, up to a counter of zero |
| `DeviceStoreModel.DeviceStore.DeleteSession` | internal/meta/device_store.go:214-219 | On success one session is gone, in memory and written; nothing else changes, and a failed call leaves both copies as they were, up to a counter of zero |
| `DeviceStoreModel.DeviceStore.DeleteAllSessions` | internal/meta/device_store.go:221-232 | On success exactly the user's sessions are gone, and that is written; nothing else changes, and a failed call leaves both copies as they were, up to a counter of zero |
| `DeviceStoreModel.DeviceStore.MigratePNToLID` | internal/meta/device_store.go:234-256 | The two in-place ranges are allowed iterations of the maps, and for users sharing no address their result is the one migrated content, whatever the order; sessions and identities alone change, and that is written, or a failed call leaves both copies as they were, up to a counter of zero |
| `DeviceStoreModel.RangeAndMove` | internal/meta/device_store.go:243-248 | Ranging over a map while inserting moved entries into it, visiting up to a given number of the inserted ones, is one of the iterations the language allows |
| `DeviceStoreModel.DeviceStore.GetOrGenPreKeys` | internal/meta/device_store.go:258-292 | Returns the batch that the allocator's specification gives for the content before the call; on success only keys and counter change and that is written, and a failed call leaves both copies as they were, up to a counter of zero |
| `DeviceStoreModel.DeviceStore.TakeAvailable` | internal/meta/device_store.go:275-281 | The loop over the sorted IDs picks the keys of the lowest stored IDs not uploaded |
| `DeviceStoreModel.DeviceStore.GenerateMissing` | internal/meta/device_store.go:282-287 | The generation loop adds the missing keys under the next consecutive 32-bit IDs |
| `DeviceStoreModel.DeviceStore.SortedAvailable` | internal/meta/device_store.go:268-274 | The stored IDs not uploaded, in increasing order, from any range order |
| `DeviceStoreModel.DeviceStore.GenOnePreKey` | internal/meta/device_store.go:294-306 | A batch of one and then a mark up to its ID, each written on its own; on success the key returned is stored, its ID is the one uploaded ID added, and nothing but keys and counter changes besides |
| `DeviceStoreModel.DeviceStore.RemovePreKey` | internal/meta/device_store.go:318-326 | On success the ID is among neither the stored nor the uploaded ones, and that is written; nothing else changes, and a failed call leaves both copies as they were, up to a counter of zero |
| `DeviceStoreModel.DeviceStore.MarkPreKeysAsUploaded` | internal/meta/device_store.go:328-339 | On success exactly the stored IDs up to the mark have joined the uploaded ones, and that is written; nothing else changes, and a failed call leaves both copies as they were, up to a counter of zero |
| `DeviceStoreModel.DeviceStore.PutSenderKey` | internal/meta/device_store.go:351-356 | On success the sender key is stored under group, colon, user, and written; nothing else changes, and a failed call leaves both copies as they were, up to a counter of zero |
| `DeviceStoreModel.DeviceStore.DeleteDevice` | internal/meta/device_store.go:112-127 | On success identities, sessions, pre-keys, uploaded IDs and sender keys are empty, the device is the old one marked deleted, the counter is unchanged, and that is written; a failed call leaves both copies as they were, up to a counter of zero |
| `PreKeys.BatchShape` | internal/meta/device_store.go:258-292 | A batch has exactly the size asked for, in increasing order: the lowest stored IDs not uploaded, then, only once those are used up, consecutive fresh ones; it returns the stored keys; from any store whose IDs still to be handed out lie below the counter |
| `PreKeys.NoneUploadedExactlyWhenNoneAhead` | internal/meta/device_store.go:258-292 | No key of a batch counts as uploaded if and only if no uploaded ID is among those it generates |
| `PreKeys.AscendsExactlyWhenAvailableBelow` | internal/meta/device_store.go:258-292 | A batch is in increasing order if and only if it generates nothing or every stored ID not uploaded lies below the counter |
| `PreKeys.BatchAddsNextIDs` | internal/meta/device_store.go:282-287 | Whatever is stored or uploaded, a call in which the counter does not wrap only adds keys under the next IDs |
| `PreKeys.AllocatorKeptExactlyWhenItFits` | internal/meta/device_store.go:282-287 | The invariant (stored and uploaded IDs below the counter, each key under its ID) survives a call if and only if the counter does not reach the end of the 32-bit range in it |
| `PreKeys.StoredIDGeneratedExactlyWhenReached` | internal/meta/device_store.go:282-287 | A call generates an ID that is already stored if and only if its counting, taken on from zero at the end of the 32-bit range, reaches a stored ID |
| `PreKeys.WrappedCounterRepeatsAnID` | internal/meta/device_store.go:282-287 | At the end of the range, a call for two keys generates ID 0 again and overwrites its stored key |
| `PreKeys.RepeatedBatch` | internal/meta/device_store.go:258-292 | Asking again without marking returns the same keys and changes nothing, if and only if no uploaded ID is among those the first call generates |
| `PreKeys.NextBatchIsLarger` | internal/meta/device_store.go:258-339 | After marking up to the last ID of a batch, the next batch lies wholly above it, whatever IDs count as uploaded |
| `PreKeys.OneKeyMarkedAlone` | internal/meta/device_store.go:294-306 | Marking up to the key of a one-key batch adds that ID alone; it was not uploaded before if and only if some stored ID was available or the counter is not on an uploaded ID |
| `PreKeys.BatchAboveMark` | internal/meta/device_store.go:258-339 | Once everything stored up to a mark below the counter is uploaded, every later batch lies above the mark, and so it stays |
| `AddressMigration.OneResultForEveryOrder` | internal/meta/device_store.go:242-254 | For users sharing no address, every iteration order the language allows, visiting inserted entries or not, gives the one migrated map |
| `AddressMigration.OrderIrrelevantExactlyWhenClean` | internal/meta/device_store.go:242-254 | The result is independent of the iteration order if and only if neither user's address prefix is a prefix of the other's |
| `AddressMigration.ColonFreeUsersAreClean` | internal/meta/device_store.go:369 | Two different users without a colon share no address, so the order never matters for them |
| `AddressMigration.MigratedLookup` | internal/meta/device_store.go:242-254 | After a migration no old address is left, a new address holds the old user's entry if there was one and its own previous value otherwise, and every other address is unchanged |
| `AddressMigration.MigratedDevices` | internal/meta/device_store.go:242-254 | In terms of the texts: after a migration no device of the old user is left, each is a device of the new user with the entry it had, replacing that one's, and addresses of neither user are unchanged |
| `AddressMigration.MigratedHasNoOldAddress` | internal/meta/device_store.go:242-254 | No address of the old user remains |
| `AddressMigration.MigratingTwice` | internal/meta/device_store.go:234-256 | A second migration changes nothing |
| `AddressMigration.CreatedEntryMovesAgain` | internal/meta/device_store.go:242-254 | When the new user's addresses are themselves old ones, visiting an inserted entry moves it a second time: two allowed orders differ |
| `AddressMigration.EntryOverwrittenBeforeItMoves` | internal/meta/device_store.go:242-254 | When the old user's addresses are new ones too, an entry can be overwritten before it is moved: two allowed orders differ |
| `LegacyImport.LegacyDeviceState` | internal/meta/device_state.go:110-218 | The import succeeds exactly when every encoded part decodes to its length, every ID parses in 32 bits and the registration ID is in range; all keys count as uploaded exactly when the uploaded list is absent; each header field is the document's own; the counter is the starting one raised past each key in turn, in 32-bit arithmetic |
| `LegacyRoundTrip.RoundTripExactlyWhenHeld` | internal/meta/device_state.go:110-218 | A well-formed content written field by field as a legacy document, IDs in decimal, imports in every order, and then loads as that same content if and only if the device is initialized and not deleted, the pre-keys are unsigned, and the counter is positive and above all of them; for contents without the last 32-bit ID and a device with a 64-byte signature |
| `LegacyRoundTrip.WrittenLoads` | internal/meta/device_state.go:110-218 | Whatever the counter: such a document loads as the content with the device initialized, the pre-keys unsigned and the imported counter |
| `LegacyRoundTrip.SomeDocumentWrites` | internal/meta/device_state.go:85-108 | Every content can be written as a legacy document |
| `LegacyRoundTrip.PrintedParses` | internal/meta/device_state.go:183-187 | An ID in decimal parses as that ID |
| `LegacyImport.DecodesExactlyWhenSized` | internal/meta/device_state.go:110-160 | The exact sizes and ranges an importable header keeps to |
| `LegacyImport.RaiseCounter` | internal/meta/device_state.go:209-216 | The counter loop: it ends above every key, at the given counter or one above some key, when no key has the last 32-bit number; with one, as 32-bit arithmetic has it |
| `LegacyImport.ImportedAllocator` | internal/meta/device_state.go:182-217 | An import meets the allocator's invariant if and only if no imported ID is the last 32-bit number and every uploaded ID is below the document's counter or not above every imported one; uploaded IDs are stored if and only if the list, when present, names imported IDs only |
| `LegacyImport.ImportedCounter` | internal/meta/device_state.go:209-216 | Without the last 32-bit ID the counter is the least one above every imported ID and not below the document's own, whatever the order |
| `LegacyImport.OrderIrrelevantExactlyWhenNoLastID` | internal/meta/device_state.go:184-216 | The imported counter is the same for every order in which the document's keys are ranged over if and only if none of them, or every one, has the last 32-bit ID |
| `LegacyImport.GenerationKeepsImportedKeys` | internal/meta/device_state.go:209-216 | After an import without the last 32-bit number, whatever its uploaded list names, a call that does not reach the end of the range overwrites no imported key |
| `LegacyImport.ImportedKeysStay` | internal/meta/device_state.go:182-217 | After such an import, whatever its uploaded list names, every imported key stays what it is through any run that does not reach the end of the range, until it is removed or the device is deleted |
| `StoredDocuments.ImportedStoreRepeatsAnID` | internal/meta/device_state.go:209-216 | A concrete legacy document, with the last 32-bit number as its counter and one key with ID 0, loads as a store whose second generated key gets ID 0 and replaces the stored one |
| `StoredDocuments.ImportedStoreReachesZero` | internal/meta/device_state.go:381-383 | A store loaded from that document has the counter zero after one generated key, and a failed write then changes it to one |
| `StoredDocuments.OpenAtEndOfRange` | internal/meta/device_store.go:258-292 | Importing that document, loading it and asking for two keys does hand out the ID 0 again |
| `StoredDocuments.CounterDependsOnOrder` | internal/meta/device_state.go:184-216 | A legacy document with the IDs 5 and 4294967295 has an import with the counter 6 and one with zero, which loads as one; from there the fifth generated key replaces the imported key 5 |
| `StoredDocuments.UploadedAheadIsSkipped` | internal/meta/device_store.go:258-292 | For a legacy document whose uploaded list names the next ID to be generated: the first key generated counts as uploaded already, and asking again gives another key |
| `StoredDocuments.OpenWithUploadedAhead` | internal/meta/device_store.go:258-292 | Opening that document and asking twice for one key, marking nothing, does give the IDs 1 and 2 |
| `StoredDocuments.OpenWithHighKey` | internal/meta/device_store.go:294-306 | Opening a current document with key 7 and counter 5 and asking twice for one key does hand out 7 and then 5 |
| `LegacyImport.UploadedByDefault` | internal/meta/device_state.go:194-201 | With the uploaded list absent, the uploaded IDs are exactly the imported ones |
| `LegacyImport.LoadDeviceStore` | internal/meta/device_state.go:58-83 | Loading a current or a legacy document gives a well-formed store with its content, or an error; a store from a legacy one has, field by field, the keys, numbers and texts of the document's device |
| `Profiles.ProfileManager.Rename` | auth/profile.go:232-326 | All or nothing: with any store calls failing, on error both stores are exactly as before; on success the profile and all managed secrets sit under the new name only and nothing else changed; in every intermediate state, rollback included, the profile and each secret exist under the old or the new name; succeeds exactly when the names are usable, the source exists and the destination is free, if nothing fails |
| `Profiles.ProfileManager.MoveProfile` | auth/profile.go:249-325 | The changing part of a rename, with both rollbacks |
| `Profiles.ProfileManager.GatherSecrets` | auth/profile.go:249-264 | Collects exactly the old name's managed secrets, refusing if the new name has any |
| `Profiles.ProfileManager.CopyToNew` | auth/profile.go:270-296 | All copies made and the old profile deleted, or everything undone |
| `Profiles.ProfileManager.RollbackNew` | auth/profile.go:271-283 | The first rollback removes exactly the copies made and the new profile, never losing a secret |
| `Profiles.ProfileManager.DeleteOld` | auth/profile.go:297-324 | All old secrets deleted, or both stores back to what they were before the rename |
| `Profiles.ProfileManager.RollbackDeleted` | auth/profile.go:302-321 | The second rollback puts the profile and the deleted secrets back before it removes the copies |
| `Profiles.CopyThenDeleteMoves` | auth/profile.go:284-324 | Copying every gathered secret and then deleting the originals moves them all and touches nothing else |
| `Profiles.DeletingUndoesCopying` | auth/profile.go:271-283 | Deleting what was copied onto free keys gives the store before the copies |
| `Profiles.WritingUndoesDeleting` | auth/profile.go:308-312 | Writing deleted secrets back gives the store before the deletions |
| `Storage.SecretKeysDoNotCollide` | storage/memory.go:82 | Joining profile and key with a zero character is injective for profiles without one |
| `Storage.MemoryProfileStore.Put` | storage/memory.go:32-44 | Stores a profile under its trimmed name, or fails and changes nothing |
| `Storage.MemoryProfileStore.Delete` | storage/memory.go:46-57 | Removes one profile, or reports it missing or the call cancelled and changes nothing |
| `Storage.MemorySecretStore.Put` | storage/memory.go:100-111 | Stores one secret, or fails and changes nothing |
| `Storage.MemorySecretStore.Delete` | storage/memory.go:113-128 | Removes one secret, or fails and changes nothing |
| `Profiles.ProfileManager.SaveAuthSnapshot` | auth/profile.go:77-115 | On success the secret 'cookies' is the printed cookies, the secret 'session' is the session and every other secret is as before; on failure, with any call failing, all are as before; succeeds if and only if the cookies pass validation and the keys are valid, when nothing fails |
| `Profiles.ProfileManager.SaveThenLoad` | auth/profile.go:61-115 | Saving a snapshot of valid cookies and loading its cookies gives them back if and only if every name and value is one a cookie string can carry |
| `Profiles.ProfileManager.RestoreSecret` | auth/profile.go:102-111 | Puts a secret back to what was read: written if it was there, deleted if it was not |
| `Profiles.ProfileManager.SaveCookies` | auth/profile.go:51-59 | Stores the printed form of valid cookies, or changes nothing |
| `Profiles.ProfileManager.LoadCookies` | auth/profile.go:61-67 | Reads and parses what is stored |
| `Profiles.SavedCookiesLoadBack` | auth/profile.go:51-67 | Saved valid cookies load back unchanged if and only if every name and value is one a cookie string can carry |
| `Cookies.RoundTripExactlyWhenPrintable` | auth/cookie.go:19-90 | Parsing what was printed gives the cookies back if and only if there is at least one, every name is non-empty, trimmed and free of ';' and '=', and every value is trimmed and free of ';' |
| `Cookies.ParsedIsWhatTheLastPartsGive` | auth/cookie.go:19-33 | For parts joined by semicolons: the parse holds a name with a value exactly when the last part that gives the name any value gives it that one, where a part gives what stands around its first equals sign, trimmed; it is refused exactly when no part gives anything |
| `Cookies.TwoCookiesPrint` | auth/cookie.go:74-90 | Two cookies print as name=value; name=value, the one first in byte order first |
| `Cookies.Print` | auth/cookie.go:74-90 | Printing joins the pairs in byte order of their names, whatever the map order |
| `Cookies.OnePrintedForm` | auth/cookie.go:74-90 | A cookie map has only one printed form |
| `Cookies.ParseCookieString` | auth/cookie.go:19-33 | The loop computes the specified parse: split, trim, cut, later pairs winning, an error when nothing is left |
| `Cookies.ParsedIsPrintable` | auth/cookie.go:19-33 | Whatever parsing accepts can be printed and carried |
| `Cookies.ParsingIsStable` | auth/cookie.go:19-90 | Parsing, printing and parsing again gives the first parse |
| `Cookies.ValidateRegular` | auth/cookie.go:58-72 | Accepts exactly the maps with non-blank c_user and xs and otherwise lists those of the two that are missing, in order |
| `Text.TrimSpaceCuts` | auth/cookie.go:22-27 | Trimming takes away white space at the two ends, all of it and nothing else |
| `AuthRefresh.Client.RefreshAuth` | client.go:292-356 | With page loads that may change the jar's cookies: on success jar, client and profile secrets hold the same cookies, those the refresh's own page load made of the source's, or of those of the first read without a source, for the connected account, and the client's source is cookies; on error client and secrets are as before, and the jar is exactly what the first read left, what the undoing's load made of that, or, when undoing fails, still the new one; a client closed meanwhile keeps nothing, while the new state of the same account has been saved; succeeds exactly when the page loads, names the same account and the snapshot can be saved, if nothing fails |
| `AuthRefresh.JarIsKeptExactlyWhenLoadsAreHarmless` | client.go:303-343 | The jar is as before the call, both after a failure with nothing to undo and after one undone without an error, if and only if the first read's page load and that of the undoing leave the cookies alone |
| `AuthRefresh.UndoneWithOtherCookies` | client.go:333-336 | A refresh that names another account and is undone without an error, after which the jar has a changed cookie |
| `AuthRefresh.Backend.RefreshAuth` | internal/meta/messagix_backend.go:137-159 | On success the jar is what the page load made of the new cookies, and the cached browser state is that page; on error both are exactly as before, whatever the load did |
| `AuthRefresh.Backend.ReadAuthState` | internal/meta/messagix_backend.go:123-135 | Answers from the cached browser state, or loads a page, whose responses may change the jar, and answers with the jar as it is then |
| `AuthRefresh.Client.NewCookies` | client.go:312-328 | Without a source the previous cookies; with one, the resolved cookies if and only if they and their validation name the connected account |
| `AuthRefresh.Client.Close` | client.go:194-232 | Empties the client, once |
| `AuthRefresh.ClosedClientStaysEmpty` | client.go:147-165 | For every interleaving of the client's locked sections, once a close has run no late commit of a connect, a login or a refresh brings an engine, cookies or credentials back |
| `AuthRefresh.CredentialsAreDropped` | client.go:262-273 | Whatever locked sections run, a client whose source is cookies holds neither the credentials nor the application state they came from |
| `AuthRefresh.CommitInstallsCookies` | client.go:147-165 | Whatever locked sections ran before, as long as none closed the client: a commit of a connect, a login, a refresh or a snapshot leaves the client with its cookies as authentication source and no credentials, and a connect leaves it connected |
| `AuthRefresh.ConnectedUntilClosed` | client.go:147-232 | A client is closed if and only if a close section has run, and until then connected if and only if it was or a connect has committed |
| `EventFanout.EveryInterleaving` | internal/runtime/session/events.go:82-112 | For every interleaving of subscribing, publishing, receiving, cancelling and closing: no send on and no second close of a channel; between publishes each live buffer is the unbroken run of events ending at the session's sequence, received numbers increase, and every event since joining is received, buffered or counted as dropped; the session's drops are the sum of the subscribers' |
| `EventFanout.DroppedOnlyBeyondCapacity` | internal/runtime/session/events.go:92-111 | Between publishes, a live subscriber that has missed events has been given at least as many as its buffer holds: its drops are no more than what was published to it beyond its capacity; so nothing is dropped before more was published than fits |
| `EventFanout.SizeAndStartAreFixed` | internal/runtime/session/events.go:46-64 | A subscription keeps the buffer size and the starting sequence it was made with through any run |
| `EventFanout.StepKeepsInv` | internal/runtime/session/events.go:46-131 | Every atomic step keeps the invariant behind all of this |
| `EventFanout.SecondSendSucceeds` | internal/runtime/session/events.go:104-108 | The last default case is never taken: after room was made, the newest event is always enqueued, since only a publish adds |
| `EventFanout.ClientClosedOnce` | internal/runtime/session/manager.go:242-251 | Of all calls of close, each with its own progress, at most one gets past the compare-and-swap, and one does once the flag is set; the client is closed at most once, exactly when that call is through |
| `EventFanout.ClosedSessionIsFrozen` | internal/runtime/session/events.go:124-131 | After the subscribers are closed there are never any again and no event is numbered any more, over every later run |
| `EventFanout.ClosedExactlyWhenEnded` | internal/runtime/session/events.go:114-131 | After any run a subscriber's channel is closed if and only if it was before or the run holds its own cancel or the closing of all: no other, repeated or stale cancel closes it, and it never reopens |
| `EventFanout.SubscriptionNumbersAreNew` | internal/runtime/session/events.go:58-63 | A subscription's number is never given to a later one |
| `EventSession.Session.Subscribe` | internal/runtime/session/events.go:46-64 | Adds one empty open channel joined at the current sequence, of the size asked for or 100 when that is below one, or reports a closed session and changes nothing |
| `EventSession.Session.Publish` | internal/runtime/session/events.go:82-112 | Its locked loop, with consumers receiving between any two steps, is an execution of the machine; afterwards every subscriber has been offered the event and kept it or its consumer has it; with no consumer in between, each subscriber with room has the event added and nothing dropped, each full one loses its oldest for it, and no other channel changes |
| `EventSession.Session.Offer` | internal/runtime/session/events.go:92-110 | One send, one drop and one more send, in that order, as machine steps; with no consumer in between it adds the event if there is room and otherwise gives up the oldest for it |
| `EventSession.Session.RemoveSubscriber` | internal/runtime/session/events.go:114-122 | Closes the channel of a live subscription once, and nothing otherwise |
| `EventSession.Session.CloseAllSubscribers` | internal/runtime/session/events.go:124-131 | Closes every live channel, in whatever order the map is ranged over |
| `EventSession.Session.EnterClose` | internal/runtime/session/manager.go:242-245 | A call of close sets the flag if nobody has, and otherwise returns at once |
| `EventSession.Session.Close` | internal/runtime/session/manager.go:242-251 | The call that sets the flag closes subscribers and client, once, with any number of other calls coming between its steps; every other call, wherever that one stands, changes nothing |
| `SessionManager.Manager.Create` | internal/runtime/session/manager.go:266-280 | Registers a fresh session, or nothing when the client could not be made |
| `SessionManager.Manager.Get` | internal/runtime/session/manager.go:282-290 | Finds a registered session or reports that there is none |
| `SessionManager.Manager.Close` | internal/runtime/session/manager.go:292-301 | Unregisters one session and closes it completely, its client once |
| `SessionManager.Manager.CloseAll` | internal/runtime/session/manager.go:303-316 | Empties the registry and leaves every session that was in it completely closed, each client closed once even if it was closed before |
| `EngineEvents.EveryInterleaving` | internal/meta/engine.go:945-1006 | With any number of concurrent emits, consumers and closes: nothing is sent on, and nothing closes, a closed channel; the buffer keeps to its capacity, which is the size asked for or 100 when that is below one; and whenever no emit is between check and last send, every event was accepted as often as it was received, buffered and dropped, in number too |
| `EngineEvents.StepKeepsInv` | internal/meta/engine.go:945-1006 | Each atomic step keeps close safety and conservation |
| `EngineEvents.ClosedChannelOnlyDrains` | internal/meta/engine.go:945-960 | After the channel is closed nothing more is accepted or dropped, and consumers only drain what is buffered, over every later run |
| `EngineEvents.ClosedEngineIsNotConnected` | internal/meta/engine.go:870-871 | After the close flag is set neither transport is ever reported connected, whatever state changes arrive late |
| `EngineEvents.EventLostExactlyWhenUndercut` | internal/meta/engine.go:985-997 | After an emit has tried to make room, whatever happens before its last send, its event is dropped if and only if the sends that landed in between, less what consumers and drops took, fill the buffer; otherwise it is enqueued |
| `EngineEvents.LoneEmitIsEnqueued` | internal/meta/engine.go:976-997 | If no other emit takes a step between an emit's call and its end, then in every interleaving with consumers and a close it loses nothing, and once through it has enqueued its event exactly once |
| `EngineEvents.EnqueuedUnlessAnotherSends` | internal/meta/engine.go:985-997 | An emit that made room enqueues its event if no other emit sends between its two steps |
| `EngineEvents.NewestMayBeLost` | internal/meta/engine.go:976-1000 | For every buffer size and from every open state, an execution with two emits at a time drops the event of the one called last while that of the one called before it is kept |
| `EngineEvents.BufferBalance` | internal/meta/engine.go:982-995 | Over every execution the buffer grows by the sends that found room and shrinks by what receives and drops took |
| `EngineModel.Engine.Emit` | internal/meta/engine.go:976-1000 | Its steps, with arbitrary interference in between, are an execution of the machine; refused once closed; without interference the event is enqueued, at the cost of the oldest one exactly when the buffer was full |
| `EngineModel.Engine.Close` | internal/meta/engine.go:945-960 | Raises the flag, lets every emit holding the lock finish, and closes the channel; a second close changes nothing |
| `EngineModel.Engine.TryEnqueue` | internal/meta/engine.go:982-984 | The first select: enqueues if and only if there is room |
| `EngineModel.Engine.TakeOldest` | internal/meta/engine.go:985-989 | The second select: drops and counts the oldest event if there still is one |
| `EngineModel.Engine.EnqueueOrDrop` | internal/meta/engine.go:990-995 | The third select: enqueues if there is room, otherwise drops and counts the emit's own event |
| `MediaStream.ReceiveMedia` | internal/runtime/server/media_stream.go:23-100 | The consumer sees a clean end only if everything received has the declared size and hash; success means it read exactly that, in order, and the hash is the payload's; never more than the declared size is forwarded; past the argument checks it is waited for exactly once; an undisturbed call ends with the one outcome its input determines, for each way a stream can go wrong; and a consumer that returns early, without a cancellation, ends the call with its own error, or with the pipe's if it had none |
| `MediaStream.Pipe.Write` | internal/runtime/server/media_stream.go:91-98 | Returns without error only once the consumer has read all of the data, and never blocks on a closed pipe |
| `MediaStream.Pipe.Join` | internal/runtime/server/media_stream.go:38-38 | Waiting is only ever done when one side of the pipe is closed, so it ends; it returns the consumer's own result |
| `MediaStream.TakeAll` | internal/runtime/server/media_stream.go:43-99 | The receive loop hands over the longest fitting run of chunks and stops at the first that does not fit |
| `MediaStream.EndOfInput` | internal/runtime/server/media_stream.go:45-67 | The payload is checked before the pipe is closed, cleanly or with the mismatch |
| `MediaStream.OneFirstMisfit` | internal/runtime/server/media_stream.go:75-86 | Where a stream of chunks stops fitting is determined |
| `MediaDownload.DownloadMedia` | internal/runtime/server/e2ee_service.go:102-115 | Metadata first, then the data in order in chunks of 64 KiB, the last one shorter but not empty, exactly as many as needed; a failing send leaves a prefix; more than 100 MiB is refused with nothing sent |
| `MediaDownload.SendThenReceive` | internal/runtime/server/e2ee_service.go:102-115 | For every payload up to 100 MiB, what the sender sends the receiver accepts, and a consumer that reads to the end gets exactly the data |
| `LimitedReads.LimitReadCloser.Read` | internal/webapi/media.go:146-163 | Delivers a prefix of the body within the limit; the limit error comes exactly when the limit is passed and then forever; the body's own end is passed on only when the whole body was delivered; panics if and only if the limit is the largest 64-bit integer |
| `LimitedReads.LimitReadCloser.constructor` | internal/webapi/media.go:96 | What is left of the limit is one less than the inner reader's budget, in 64-bit arithmetic |
| `LimitedReads.ReadAll` | internal/webapi/media.go:139-165 | Reading to the end in any sizes gives the whole body with its own end if it fits, and otherwise exactly the first max bytes with the limit error |
| `LimitedReads.ReadEach` | internal/webapi/media.go:139-165 | Any sequence of reads returns a prefix of at most max bytes; a limit error only comes after exactly max bytes of a larger body, and only limit errors follow it |
| `EventQueueModel.EventQueue.Push` | sdk/node/src/events.ts:18-24 | An event is delivered to the oldest waiting read, else joins the buffer if there is room, else ends the queue with an overflow; an ended queue ignores it; refines the history |
| `EventQueueModel.EventQueue.Next` | sdk/node/src/events.ts:26-31 | The new promise gets the oldest buffered event, else a truthy error, else the end, else waits; refines the history |
| `EventQueueModel.EventQueue.Close` | sdk/node/src/events.ts:33-37 | Every pending promise is finished, the settled and the buffer stay; refines the history |
| `EventQueueModel.EventQueue.Fail` | sdk/node/src/events.ts:39-44 | Every pending promise is rejected with the error, even a falsy one, the settled and the buffer stay; refines the history |
| `EventQueueModel.BufferIsBounded` | sdk/node/src/events.ts:18-31 | Over every run the buffer stays within the limit, reads wait only while the queue is open and empty, and exactly the waiting ones are pending |
| `EventQueueModel.SettledOnce` | sdk/node/src/events.ts:10-44 | A settled promise never changes, over every later run |
| `EventQueueModel.NothingPendingAfterEnd` | sdk/node/src/events.ts:33-44 | After a close or a failure no promise, earlier or later, is pending, and nothing more is accepted |
| `EventQueueModel.EventsInOrder` | sdk/node/src/events.ts:18-31 | Over every run, the events given to the reads, followed by those still buffered, are exactly the events pushed up to the end, in order; once enough reads were made all of them have been given, and no read that got the end comes before one that got an event |
| `EventQueueModel.AcceptedUntilTheEnd` | sdk/node/src/events.ts:18-44 | Over every run: accepted are exactly the events pushed before the first close, failure, or push that finds as many events pushed and not read as the limit, and that operation alone says how the queue has ended |
| `EventQueueModel.LateReadsSeeTruthyErrorsOnly` | sdk/node/src/events.ts:26-44 | A read after a failure and a drained buffer is rejected if and only if the error is truthy; a falsy one looks like a close, although it did reject the reads that waited |
| `EventQueueModel.ReadsFinishAfterClose` | sdk/node/src/events.ts:26-37 | Once the queue is closed, over every later run, the reads of accepted events get them and every other read, waiting or later, is finished and never rejected |

## Left out

Assumptions the model makes about code outside it:

- Public keys are determined by private keys, so a key is its private half; keys, hashes and random numbers come in as parameters.
- Encoding then decoding a document, a device identity, a JID or a UUID gives it back (`Faithful`); JSON, base64 and protobuf themselves are not modelled.
- A persistence callback or store call that fails has written nothing; file stores and atomic renames are not modelled.
- The jar's update replaces its cookies. A page load is scripted: the page it yields, if any, and what its responses make of the cookies it was sent, whatever that is; other requests of the client do not change the jar during a refresh.
- New session identifiers are not yet registered, as random identifiers are not.
- A media consumer's choices depend on what it has read, and it returns once the pipe has ended.

What the models do not capture:

- RoundTripExactlyWhenHeld: a legacy document's user and device are taken together as the JID text they print as; contents that hold the last 32-bit ID, whose counter then depends on the order, are left to OrderIrrelevantExactlyWhenNoLastID.
- RestoreLocked: restores content; that the device object is a new one, and aliasing of returned keys, is not captured.
- The `PutDevice` call, whose device is changed outside the store and which does not roll back.
- Device stores with missing key pairs or nil keys, and snapshots that fail to encode; the model's stores always have all parts.
- GenOnePreKey: sequential only; the lock is released between its two parts, so another caller may come in between.
- The getters of the device store and the locks around its calls, which make each of them one step.
- Mutations are inlined: a call takes the snapshot, changes the fields and writes, instead of passing a closure.
- Rename: stores whose rollback calls fail are not covered; the code goes on deleting the new copies then, and a secret may be lost.
- RefreshAuth: validation and resolving of a new source are a scripted answer, and a close that comes during the call is one that comes before its last locked section.
- Connecting a client beyond its locked sections, replacing engines, event handlers and their dispatch.
- Importing cookies from JSON, logging out, removing and listing profiles, and validators for end-to-end encryption: one branch each.
- Strings are sequences of code points, sorted by code point, which is the byte order of their UTF-8 form; invalid UTF-8 is not modelled.
- The session's event payloads, timestamps and identifiers, and the `Subscription` object, whose once-only close is the first of several cancels.
- Session.Close: the session's client is only counted as closed; errors of closing a client, and joining them in CloseAll, are left out.
- Emit: calling the registered handlers after the event is offered, and the registration of handlers.
- That a waiting writer keeps new readers of the engine's lock out; the machine allows more interleavings than the lock does.
- The engine's health snapshot after a close, which the code does not keep consistent.
- ReceiveMedia: the pipe is modelled at the level of whole reads, with the context cancelled after any number of them, none included; which error is returned is only fixed when neither a cancellation nor an early return of the consumer took effect.
- The gRPC frames around a media stream, apart from metadata first and chunks after.
- The URL, address and redirect checks of a media download, and a zero or negative limit, which is replaced by a default before the reader is made.
- The Node SDK's `EventStream`, which feeds the queue and dispatches to listeners.
- HTTP, GraphQL, messaging transports, the command line, configuration, request validation, conversion tables and log redaction.
