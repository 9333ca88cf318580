# Vultisig SDK: a Dafny model of its vault import, wasm glue, handles, caches and encodings

The project models the parts of the repository where state is shared, interrupted or encoded, and proves what
their code and comments promise. One module per source component:

| module | what it models |
|---|---|
| `JsonText`, `StableSort`, `VaultShare` | when two vault shares count as the same, and which backup may replace which |
| `VaultImport` | one import as the stretches of code between its awaits, and many imports over one storage as a state machine |
| `VaultImportSafety`, `VaultImportRuns` | what one stretch keeps in any environment, and what every run keeps |
| `VaultImportOutcome` | every end of the conflict check, and of an import that is left alone |
| `VaultImporter` | the same stretches as methods that update storage, password cache and the decrypted buffer in place |
| `FastVaultLifecycle` | creating, verifying, deleting and clearing fast vaults, alone and interleaved |
| `Utf8`, `WasmGlue` | strings and arrays of values passed through wasm memory, with cached views and a table |
| `WasmHandles` | who owns the raw pointers of the wasm objects |
| `NativeHandles` | temporary keyshare handles of the two native engines |
| `MpcRuntime` | the process-wide engine, with concurrent lazy installation |
| `MemoizeAsync` | single-flight memoization with expiry |
| `CredentialStore`, `AuthSetup` | keyring with encrypted-file fallback, the two-part credential write, and the list of configured vaults |
| `AddressBook` | two lists that stand for two maps, their persistence, and overlapping calls |
| `Decimals`, `FormatAmount` | tiny currency amounts and the abbreviation of large ones, over exact reals |
| `DerSignature`, `ReshareCommittee`, `TerminalEscape` | ASN.1 integers, committee indices, terminal escapes |
| `Wrappers`, `Octets` | optional values and results, bytes |

`dafny verify dfyconfig.toml` checks everything. Failures, clocks, randomness, prompts and the network are inputs:
an operation takes the outcomes of the calls it awaits. Cryptography, protobuf, base64 and `Intl` are function
parameters; the laws asked of them (round trips, the mark of a new backup, a 16-byte tag) are preconditions.

## Where the code does not do what is said of it

Each is a lemma or a clause with its exact condition.

- Two imports and a delete. `vault.save()` re-reads the record and compares revisions only
  (`packages/sdk/src/vault/VaultBase.ts:967-992`). The comment at `packages/sdk/src/VaultManager.ts:453-456` holds as
  long as nothing is deleted (`CommitsOverwriteWhatWasChecked`); after a delete and another import the revision is 1
  again and an unvalidated record is overwritten (`DeleteDefeatsTheCheck`, `UncheckedOverwriteExactlyWhen`).
- After the durable write an import can report CORRUPTED_DATA: when the SDK was disposed meanwhile, or the notice
  handler throws (`TailFailsExactlyWhen`, `DisposeHidesADurableImport`). A record whose new revision leaves the safe
  integers is written, and the save then throws, without a notice (`ImportEndsConsistently`).
- The file storage can throw after it renamed the new record into place, when its lock cannot be released
  (`packages/sdk/src/platforms/node/storage.ts:131-162`). An import then reports PERSISTENCE_FAILED over a durable
  record, without a notice (`LateThrowHidesADurableImport`); a pending fast vault is stored but its object can no
  longer be saved (`LateThrowStrandsTheVault`).
- `recordsEqual` depends on insertion order when two keys tie under `localeCompare` (`RecordsEqualIsExactIffNoTies`).
- A fast vault made from a seedphrase with chains is stored before any code is verified (`SeedingStoresUnverifiedIff`).
  Using the phrase of a verified vault again without chains makes it pending again, and nothing else does while
  nothing is deleted (`PendingAgainIff`); until its record is deleted no code can get it saved
  (`SeededAgainCannotBeSaved`, `UnsavedBecomesSavableIff`, `SeededAgainIsSavedAfterDeletion`).
- Deleting a pending vault cancels a verification under way exactly if that has yet to look it up
  (`DeletePendingCancelsIff`); clearing everything does so then, and also when its object was saved before
  (`ClearCancelsIff`). A verification from disk cannot be repeated once the vault was saved
  (`DiskVerificationSavesIff`).
- A string with a lone surrogate does not come back from wasm unchanged (`StringSurvivesIff`). A `Keyshare` that was
  freed is passed to `QcSession` as if there were none (`Module.NewConsuming`).
- Refresh and sign leak their temporary native handle when the native call throws (`RunIsCleanIff`).
- Under explicit strictness the second of two concurrent `ensureMpcEngine` calls throws; where duplicates are permitted
  it overwrites an untagged engine that was configured during its import (`MeanwhileRegistered`).
- A function that throws synchronously leaves its key pending for ever (`SynchronousThrowPoisons`). One that calls
  the memoized function for its own key before it first waits is in flight twice (`SingleFlightIff`). A cache time
  of 0 means that nothing expires.
- With an empty file passphrase a stored password cannot be read back, and an unreadable credentials file is replaced
  by one that holds the new account only (`Store.Set`, `Store.PersistVaultCredentials`). The write to the file behind a
  failing keyring is dead code, because a passphrase always selects the file. Two writes to the file that overlap
  can lose an account (`NoChangeIsLostIff`, `OverlappingSetsLoseTheFirstIff`).
- A `clear` of the address book that is overtaken by an `add` removes the added vault entry from storage only
  (`LateRemovalKeepsStepIff`, `ClearIsOvertaken`).
- From 10^15 on `formatAmount` overwrites its suffix (`SuffixIsExactIff`). A DER signature of more than 127 bytes has a
  length octet that does not give its length (`SignatureReadsBackIff`).

## Model

| member | source | states |
|---|---|---|
| VaultShare.RecordsEqualIsMapEquality | packages/sdk/src/VaultManager.ts:81-86 | under a key order that separates the keys, two records compare equal exactly when they are the same map, whatever the insertion order, with absent and empty the same |
| VaultShare.TiedKeysBreakRecordsEqual | packages/sdk/src/VaultManager.ts:81-86 | two different keys that tie in the key order give equal maps that compare unequal |
| VaultShare.RecordsEqualIsExactIffNoTies | packages/sdk/src/VaultManager.ts:81-86 | the comparison is map equality on all records if and only if the key order never ties two different keys |
| JsonText.StringifyDecidesEquality | packages/sdk/src/VaultManager.ts:85 | the JSON texts of two lists of pairs are equal only when the lists are |
| JsonText.QuoteForms | packages/sdk/src/VaultManager.ts:85 | the escapes that `JSON.stringify` gives for each character (section 25.5.2.3 of ECMA-262) |
| StableSort.SortedIsUnique | packages/sdk/src/VaultManager.ts:83 | a sorted arrangement of the same entries is unique when no two of them tie, which makes sorting a normal form |
| VaultShare.ArraysEqual | packages/sdk/src/VaultManager.ts:88-89 | the length test and the element loop decide equality of the lists |
| VaultShare.ValidateReplacementVerdict | packages/sdk/src/VaultManager.ts:205-243 | each verdict in terms of what the two vaults mean: accepted exactly for the same share, another device exactly for another local party, incompatible exactly for a differing key domain, stale otherwise |
| VaultShare.AcceptsIsNormalFormEquality | packages/sdk/src/VaultManager.ts:205-243 | an imported vault is accepted exactly when both vaults have one normal form: records sorted, name ignored |
| VaultShare.AcceptanceIsEquivalence | packages/sdk/src/VaultManager.ts:205-243 | acceptance is reflexive, symmetric and transitive for any key order |
| VaultImportSafety.PreparedContentDecodes | packages/sdk/src/VaultManager.ts:245-338 | whatever text an import is going to store decodes, with the password it was given, to the vault it parsed, also after the upgrade of a legacy backup |
| VaultImportSafety.PrepareAgreesWithDecode | packages/sdk/src/VaultManager.ts:245-338 | a backup can be imported exactly if decoding it would succeed and its ciphertext is not too short, gives the vault so decoded, is upgraded exactly if it is in the old format, and which inputs give which password error |
| VaultImportSafety.UnreadableBackups | packages/sdk/src/VaultManager.ts:245-338 | which texts, ciphertexts and contents give each of the other three errors, with the mark and the shortest lengths of both backup formats |
| VaultImportSafety.MigrationHappensOnce | packages/sdk/src/VaultManager.ts:321-325 | importing an upgraded backup again gives the same vault and no second upgrade |
| VaultImportSafety.DecodesIsUnique | packages/sdk/src/VaultManager.ts:135-149 | the passwords that open a stored text give one share, unless the ciphertext itself was made to open to two plaintexts |
| VaultImportSafety.PromptsExactlyWhen | packages/sdk/src/VaultManager.ts:174-190 | the user is asked exactly when neither the cached nor the imported password reads the encrypted record |
| VaultImportSafety.CheckConflictIsOk | packages/sdk/src/VaultManager.ts:151-203 | an import goes on to overwrite a record only if it decoded that record and accepted the share in it, unless validation was waived by the caller |
| VaultImportOutcome.ConflictOutcome | packages/sdk/src/VaultManager.ts:340-364 | every way in which the conflict check can end: it goes on to the save exactly for the same share and no `reject`, or for an unreadable record and `replace-unvalidated`, given a valid revision and an adapter with compare-and-set; and which error every refusal gives |
| VaultImportOutcome.AnswerOutcome | packages/sdk/src/VaultManager.ts:187-203 | the same behind the prompt, where the answer decides |
| VaultImportOutcome.AbsentOutcome | packages/sdk/src/VaultManager.ts:346 | a vault that is not stored goes on to the save exactly if the adapter can protect it |
| VaultImportOutcome.SaveOutcome | packages/sdk/src/vault/VaultBase.ts:967-987 | the re-read of the save goes on exactly if it returned and found no record where there was none, or one with the same safe revision; everything else is a persistence failure |
| VaultImportOutcome.WriteOutcome | packages/sdk/src/vault/VaultBase.ts:988-1006 | the write takes place exactly if the record is the one that was re-read and the call gets that far, replaces that record alone, and is followed by the rest of the import exactly if it returned and the new revision is safe |
| VaultImportOutcome.FaultOutcome | packages/sdk/src/VaultManager.ts:425-533 | a read or a pointer write that throws ends the import with a persistence failure and no other change |
| VaultImportOutcome.UndisturbedImport | packages/sdk/src/VaultManager.ts:413-550 | an import that nothing comes between succeeds exactly if the backup can be read, the adapter can protect the write, the stored record admits it and the cache can be written; then the record is the imported one under the next revision, the vault is active, an upgrade was announced and the cache describes the record |
| VaultImportSafety.SegmentKeepsTaskOk | packages/sdk/src/VaultManager.ts:421-550 | every uninterrupted stretch of an import keeps the bookkeeping that ties its write to what it validated, in any environment |
| VaultImportSafety.SameStoredShareMeansSameShare | packages/sdk/src/VaultManager.ts:205-243 | with separated keys and one plaintext for each backup, equivalent stored texts decode to the same share field by field, with whatever passwords |
| VaultImportRuns.ImportEndsConsistently | packages/sdk/src/VaultManager.ts:489-550 | how an import can end in every run: which error after the durable write, and that the notice has fired exactly when an upgraded record is durable, the write that made it so returned, the cache did not throw and the written revision is a safe integer |
| VaultImportRuns.SegmentWritesWholeRecordOnce | packages/sdk/src/VaultManager.ts:490-499 | records are left alone except for one write, which is the complete new record over exactly the record the save had read |
| VaultImportRuns.TailFailsExactlyWhen | packages/sdk/src/VaultManager.ts:501-517 | between the durable write and the pointer write an import fails exactly on a destroyed password cache that it has to write or on a throwing notice handler |
| VaultImportRuns.RejectKeepsRecords | packages/sdk/src/VaultManager.ts:358-363 | a stretch of an import with `reject` leaves every stored record as it is |
| VaultImportRuns.RejectNeverChangesARecord | packages/sdk/src/VaultManager.ts:358-363 | over runs with `reject` only, a record that is stored stays the same record |
| VaultImportRuns.CommitsOverwriteWhatWasChecked | packages/sdk/src/VaultManager.ts:453-456 | as long as nothing is deleted, every durable import overwrote the very record it had validated, although only revisions are compared |
| VaultImportRuns.SharesNeverChange | packages/sdk/src/VaultManager.ts:340-364 | over any interleaving of `reject` and `replace` imports with edits, cache changes, disposals and pointer switches, the text stored for a vault stays equivalent under the source's own comparison, unless a backup made for two passwords takes part |
| VaultImportRuns.StoredShareNeverChanges | packages/sdk/src/VaultManager.ts:205-243 | over the same runs, whatever the record stored for a vault decoded to at some moment, it decodes to the same local party, public keys, signers, chain code and key shares for ever |
| VaultImportRuns.ReplacementKeepsTheShareItRead | packages/sdk/src/VaultManager.ts:421-498 | for any backups at all, a durable replace had opened the very record it overwrote to the share that it wrote |
| VaultImportRuns.RevisionCountsWrites | packages/sdk/src/vault/VaultBase.ts:967-989 | the revision counts the durable writes one by one, so no update is lost |
| VaultImportRuns.UncheckedOverwriteExactlyWhen | packages/sdk/src/vault/VaultBase.ts:967-975 | a save overwrites a record its import never validated exactly when another record with the same revision has taken its place |
| VaultImportRuns.FirstImportStores | packages/sdk/src/VaultManager.ts:421-550 | an undisturbed import of a vault that is not stored writes its record with revision 1 |
| VaultImportRuns.DeleteDefeatsTheCheck | packages/sdk/src/VaultManager.ts:453-456 | deleting the vault and importing another backup in between brings revision 1 back, and the waiting replace overwrites that unvalidated backup |
| VaultImportRuns.DisposeHidesADurableImport | packages/sdk/src/services/PasswordCacheService.ts:64-67 | disposing during the save leaves the record durable while the import reports corrupted data and announces nothing |
| VaultImportRuns.LateThrowHidesADurableImport | packages/sdk/src/platforms/node/storage.ts:131-162 | a compare-and-set that throws after it wrote leaves the record durable while the import reports a persistence failure and announces nothing |
| VaultImportRuns.SameRevisionIsOverwritten | packages/sdk/src/vault/VaultBase.ts:967-992 | a save goes through over whatever record has the revision of the one its import validated |
| VaultImporter.PasswordCache.Set | packages/sdk/src/services/PasswordCacheService.ts:64-75 | throws exactly on a destroyed cache and stores nothing when caching is off |
| VaultImporter.ImportRun.WipeDecrypted | packages/sdk/src/VaultManager.ts:547-549 | every byte of the decrypted buffer becomes zero |
| VaultImporter.ImportRun.Prepare | packages/sdk/src/VaultManager.ts:245-338 | parsing, decrypting, decoding and re-encrypting in place do what the first segment says; a failure leaves a zeroed buffer |
| VaultImporter.ImportRun.Validate | packages/sdk/src/VaultManager.ts:205-243 | the tests in order, lists compared by the loop, give the verdict |
| VaultImporter.ImportRun.Conclude | packages/sdk/src/VaultManager.ts:346-364 | the rest of the conflict check behind the decoding of the record |
| VaultImporter.ImportRun.TryCandidates | packages/sdk/src/VaultManager.ts:174-185 | the loop over cached and imported password, each once and no blank one, finds the first that reads the record |
| VaultImporter.ImportRun.CheckStored | packages/sdk/src/VaultManager.ts:151-185 | the conflict check up to the password prompt |
| VaultImporter.ImportRun.ReadExisting | packages/sdk/src/VaultManager.ts:435-445 | the read and the conflict check do what their segment says; a failure leaves a zeroed buffer |
| VaultImporter.ImportRun.ResumeAfterPrompt | packages/sdk/src/VaultManager.ts:187-202 | the rest of the conflict check behind the password prompt, as its segment says |
| VaultImporter.ImportRun.ReadForSave | packages/sdk/src/vault/VaultBase.ts:967-987 | the re-read of the save and its revision comparison, as its segment says |
| VaultImporter.Storage.CompareAndSet | packages/sdk/src/platforms/node/storage.ts:131-162 | the record is replaced exactly if it is the expected one and the call did not fail before its write; a call that throws may have written |
| VaultImporter.ImportRun.CommitRecord | packages/sdk/src/vault/VaultBase.ts:988-1006 | the compare-and-set, throwing before or after its write, and what follows it inside the save, as its segment says |
| VaultImporter.ImportRun.ChangePasswordState | packages/sdk/src/VaultManager.ts:501-508 | the password cache after the durable save, and when it throws |
| VaultImporter.ImportRun.FinishSave | packages/sdk/src/VaultManager.ts:501-517 | password cache, then notice, as its segment says; a failure leaves a zeroed buffer |
| VaultImporter.ImportRun.WriteActivePointer | packages/sdk/src/VaultManager.ts:519-533 | the pointer write, as its segment says; both ends leave a zeroed buffer |
| FastVaultLifecycle.Vultisig.VerifyVault | packages/sdk/src/Vultisig.ts:381-418 | nothing changes before the server accepted; it succeeds exactly when the pending vault is found, accepted and can be saved, and then the vault is stored, active and pending nowhere; what every failure behind the acceptance leaves; other vaults are untouched |
| FastVaultLifecycle.Vultisig.CreateFastVault | packages/sdk/src/Vultisig.ts:533-564 | when it succeeds, and the exact state for every outcome: without skipping only the pending places change; with it the vault is saved and made active, exactly if it is not stored and both calls return, and is never pending |
| FastVaultLifecycle.Vultisig.CreateFromSeedphrase | packages/sdk/src/Vultisig.ts:719-756 | when it succeeds, and the exact state for every outcome: the vault becomes pending, and is saved before that when chains are set |
| FastVaultLifecycle.Vultisig.DeletePendingVault | packages/sdk/src/Vultisig.ts:443-447 | both pending places lose the vault; when the storage throws memory stays, and the record on disk too unless the call took effect |
| FastVaultLifecycle.Vultisig.Save | packages/sdk/src/vault/VaultBase.ts:967-1007 | a save succeeds exactly when the stored revision is the one the object knows and nothing throws, and then advances both; a throw after the write advances the stored one alone |
| FastVaultLifecycle.UndisturbedLookup | packages/sdk/src/Vultisig.ts:384-400 | a verification task that nothing comes between finds what the method finds, in memory or else on disk |
| FastVaultLifecycle.UndisturbedVerification | packages/sdk/src/Vultisig.ts:402-418 | it then leaves what the method leaves: no change for a rejected code or a vault that cannot be saved, else the completed state |
| FastVaultLifecycle.UndisturbedCreation | packages/sdk/src/Vultisig.ts:533-564 | a creation task that nothing comes between leaves what the method leaves, skipping or not, persisting or not |
| FastVaultLifecycle.UndisturbedSeeding | packages/sdk/src/Vultisig.ts:719-756 | the same for a creation from a seedphrase, with chains or without |
| FastVaultLifecycle.UndisturbedClear | packages/sdk/src/Vultisig.ts:1025-1031 | a clear that nothing comes between, in whatever order it removes the keys, has ended only when records, pending records, pending objects and the active pointer are gone |
| FastVaultLifecycle.ClearGoesOn | packages/sdk/src/Vultisig.ts:1025-1031 | each of its removals shortens its lists, and empty lists bring it to its end |
| FastVaultLifecycle.StoredOnlyIf | packages/sdk/src/Vultisig.ts:381-418 | over any interleaving a stored vault was there at the start, had its code accepted, skipped the verification, or came from a seedphrase with chains |
| FastVaultLifecycle.SeedingStoresUnverifiedIff | packages/sdk/src/Vultisig.ts:719-756 | without any code a creation from a seedphrase newly stores its vault exactly when it sets chains and the vault is not stored; for a stored one it then ends in a conflict and changes neither storage nor pending places |
| FastVaultLifecycle.SeededAgainCannotBeSaved | packages/sdk/src/Vultisig.ts:742-753 | a stored vault that is created from its seedphrase again is pending, and in no run without deletions can the new object be saved |
| FastVaultLifecycle.UnsavedBecomesSavableIff | packages/sdk/src/vault/VaultBase.ts:967-975 | an object that was never saved and cannot be saved now can be after one event exactly if that event removes the stored record |
| FastVaultLifecycle.SeededAgainIsSavedAfterDeletion | packages/sdk/src/Vultisig.ts:742-753 | a run in which the stored vault is deleted in between, and the accepted code saves the one made from the seedphrase |
| FastVaultLifecycle.StuckStays | packages/sdk/src/vault/VaultBase.ts:967-975 | while nothing is deleted or cleared, an object that knows no revision of its stored vault, or an older one, stays unable to be saved whatever runs |
| FastVaultLifecycle.LateThrowStrandsTheVault | packages/sdk/src/platforms/node/storage.ts:131-162 | a save that throws after its write leaves the vault stored and its object unable to be saved in every run without deletions |
| FastVaultLifecycle.VerifiedIsNotPending | packages/sdk/src/Vultisig.ts:407-413 | a verification that ended well leaves its vault pending neither in memory nor on disk, whatever else runs, as long as creating and verifying that vault are kept apart by the caller |
| FastVaultLifecycle.BecomesPendingIff | packages/sdk/src/Vultisig.ts:551-560 | exactly which single event puts a vault that is pending nowhere into a pending place; for one created before, with no creation under way, only the start of one from its seedphrase without chains does |
| FastVaultLifecycle.VerifiedIsSettled | packages/sdk/src/Vultisig.ts:407-413 | in runs without deletions that keep creation and verification apart, a verification that ended well leaves its vault stored, pending nowhere, and with no creation under way |
| FastVaultLifecycle.PendingAgainIff | packages/sdk/src/Vultisig.ts:742-753 | from there on, while nothing is deleted or cleared, the vault is pending at some later moment if and only if its seedphrase is used again without chains |
| FastVaultLifecycle.SeededAgainIsPendingAgain | packages/sdk/src/Vultisig.ts:742-753 | a run in which a verified vault becomes pending again because its seedphrase was used again |
| FastVaultLifecycle.VerifiedStaysStored | packages/sdk/src/Vultisig.ts:407-409 | as long as nothing is deleted or cleared, a vault is stored from the moment its verification saved it |
| FastVaultLifecycle.AcceptanceSavesIff | packages/sdk/src/Vultisig.ts:402-409 | an accepted code saves the vault exactly if its object can be saved, and otherwise changes nothing |
| FastVaultLifecycle.DeletePendingCancelsIff | packages/sdk/src/Vultisig.ts:443-447 | deleting the pending vault cancels a verification under way exactly if that has yet to look the vault up; past the lookup an accepted code saves it exactly if its object can be saved |
| FastVaultLifecycle.ClearCancelsIff | packages/sdk/src/Vultisig.ts:1025-1031 | after a clear an accepted verification brings its vault back and makes it active exactly if it had passed its lookup with an object that was never saved |
| FastVaultLifecycle.DiskVerificationSavesIff | packages/sdk/src/Vultisig.ts:386-392 | a verification from the pending record on disk can save exactly if the vault is not stored, so none succeeds after a crash between save and cleanup |
| Utf8.DecodeInvertsEncode | packages/lib/dkls/vs_wasm.js:42 | the encoding is UTF-8: the decoder of section 4 of RFC 3629 gives the scalar values back |
| Utf8.EncodeInvertsDecode | packages/lib/dkls/vs_wasm.js:18 | octets that decode are the one encoding of what they decode to |
| Utf8.EncodeFitsThreePerUnit | packages/lib/dkls/vs_wasm.js:82 | a code unit takes three octets at most, the bound of the reallocation |
| Utf8.AsciiPrefixSplits | packages/lib/dkls/vs_wasm.js:70-80 | an ASCII prefix is its own encoding and the rest is encoded as if it stood alone, so the fast path agrees with the plain one |
| Utf8.StringSurvivesIff | packages/lib/dkls/vs_wasm.js:31-34 | a string comes back unchanged if and only if it holds no lone surrogate |
| Utf8.StringComesBackAs | packages/lib/dkls/vs_wasm.js:31-34 | what comes back, unit by unit: each lone surrogate has become U+FFFD and nothing else has changed |
| WasmGlue.WriteStaysInside | packages/lib/dkls/vs_wasm.js:76 | a write inside one block changes that block and no other |
| WasmGlue.FittingIsAll | packages/lib/dkls/vs_wasm.js:84-85 | `encodeInto` a large enough view writes the whole string |
| WasmGlue.U32RoundTrip | packages/lib/dkls/vs_wasm.js:131 | four little-endian octets give the number back |
| WasmGlue.SlotAt | packages/lib/dkls/vs_wasm.js:127-135 | the four-octet slots of a pointer array do not overlap: each reads back its own index |
| WasmGlue.WithSlotsLookup | packages/lib/dkls/vs_wasm.js:3-7 | values put in fresh table slots are found there, and older slots keep theirs |
| WasmGlue.WithoutSlots | packages/lib/dkls/vs_wasm.js:117 | taking out the slots that were added restores the table |
| WasmGlue.FirstFree | packages/lib/dkls/vs_wasm.js:4 | as long as the table is not full a free slot is found |
| WasmGlue.Buffer.Store | packages/lib/dkls/vs_wasm.js:76 | a store outside the view or into a detached buffer is dropped, any other changes one byte |
| WasmGlue.Glue.Malloc | packages/lib/dkls/vs_wasm.js:68 | the contract of the allocator: a block apart from all live ones, whose contents stay though the memory may be replaced |
| WasmGlue.Glue.Realloc | packages/lib/dkls/vs_wasm.js:82 | the contract of reallocation: the common prefix and all other blocks stay, the caller names the true old size |
| WasmGlue.Glue.GetUint8View | packages/lib/dkls/vs_wasm.js:22-29 | the byte view that is handed out is over the current buffer, also after growth |
| WasmGlue.Glue.GetDataView | packages/lib/dkls/vs_wasm.js:96-103 | the data view is over the current buffer, in engines that report detached buffers and in those that do not |
| WasmGlue.Glue.CopyAscii | packages/lib/dkls/vs_wasm.js:70-78 | the loop leaves exactly the longest ASCII prefix in the block and touches no other block |
| WasmGlue.Glue.EncodeString | packages/lib/dkls/vs_wasm.js:44-55 | both variants write the encoding, inside the given part of the block |
| WasmGlue.Glue.PassWhole | packages/lib/dkls/vs_wasm.js:59-65 | the one-shot path leaves a block of exactly the UTF-8 octets |
| WasmGlue.Glue.EncodeRest | packages/lib/dkls/vs_wasm.js:83-87 | the rest encoded behind the ASCII prefix completes the UTF-8 octets of the whole string |
| WasmGlue.Glue.GrowAndEncode | packages/lib/dkls/vs_wasm.js:82-86 | after the first reallocation and the encoding of the rest, the block starts with the UTF-8 octets of the whole string and nothing was cut off |
| WasmGlue.Glue.CopyStart | packages/lib/dkls/vs_wasm.js:67-78 | a new block begins with the leading ASCII code units |
| WasmGlue.Glue.PassRest | packages/lib/dkls/vs_wasm.js:80-90 | growing, encoding the rest and shrinking leaves exactly the UTF-8 octets of the whole string |
| WasmGlue.Glue.PassInTwoSteps | packages/lib/dkls/vs_wasm.js:67-93 | the two-step path leaves exactly the UTF-8 octets of the whole string |
| WasmGlue.Glue.PassString | packages/lib/dkls/vs_wasm.js:57-94 | for every string the new block holds exactly its UTF-8 octets, the length register their number, and no other block changes, with either path |
| WasmGlue.Glue.GetString | packages/lib/dkls/vs_wasm.js:31-34 | any place in the memory reads as what its octets decode to; a live block by its contents, and length zero as the empty string |
| WasmGlue.Glue.StringThereAndBack | packages/lib/dkls/vs_wasm.js:31-94 | passing a string and reading it back gives it back if and only if it holds no lone surrogate |
| WasmGlue.Glue.AddToTable | packages/lib/dkls/vs_wasm.js:3-7 | the value lands in a slot that was not live |
| WasmGlue.Glue.PassArray | packages/lib/dkls/vs_wasm.js:127-135 | a new block lists fresh slots that hold the values in order |
| WasmGlue.Glue.GetArray | packages/lib/dkls/vs_wasm.js:110-119 | the listed values come back in order and exactly their slots are released |
| WasmGlue.Glue.ArrayThereAndBack | packages/lib/dkls/vs_wasm.js:110-135 | passing an array and reading it back gives the same array and leaves the table as it was |
| WasmHandles.Module.NeverReleasedTwice | packages/lib/dkls/vs_wasm.js:150-186 | whatever operations a module has run, between two releases of a pointer the native side made it again |
| WasmHandles.Module.ReleasedIsDead | packages/lib/dkls/vs_wasm.js:156-166 | a pointer that was released and not made again is live nowhere and held by no wrapper |
| WasmHandles.NoDoubleRelease | packages/lib/dkls/vs_wasm.js:156-166 | the same for any history of calls that the native side can follow |
| WasmHandles.ReleaseWasMade | packages/lib/dkls/vs_wasm.js:163-166 | every released pointer was made before, as an object of that kind |
| WasmHandles.Module.LivePointerHasOneHolder | packages/lib/dkls/vs_wasm.js:150-186 | with a registry each live pointer belongs to exactly one wrapper, which is registered to free it |
| WasmHandles.Module.Wrap | packages/lib/dkls/vs_wasm.js:882-888 | a new wrapper holds the pointer alone |
| WasmHandles.Module.DestroyIntoRaw | packages/lib/dkls/vs_wasm.js:890-895 | the pointer leaves its wrapper and its registration |
| WasmHandles.Module.Free | packages/lib/dkls/vs_wasm.js:897-900 | the native free gets the pointer once; a second call hands over zero |
| WasmHandles.Module.ToBytes | packages/lib/dkls/vs_wasm.js:1027-1031 | the consuming read releases the pointer and leaves the wrapper empty |
| WasmHandles.Module.NewConsuming | packages/lib/dkls/vs_wasm.js:1076-1096 | the argument is consumed whether or not the constructor throws, also when the new object lies where the argument was; a used-up wrapper passes the zero that means no argument |
| WasmHandles.Module.Borrow | packages/lib/dkls/vs_wasm.js:905-915 | a borrowing call passes a live pointer or zero and changes nothing |
| WasmHandles.Module.Collect | packages/lib/dkls/vs_wasm.js:876-878 | a finalizer frees the pointer of a registered wrapper once; without a registry it is leaked, never freed |
| NativeHandles.Engine.EnsureNative | packages/mpc-native/src/index.ts:354-362 | a handle of the engine itself is used as it is; any other keyshare has its bytes read and gets a new live handle |
| NativeHandles.Engine.RefreshOrSign | packages/mpc-native/src/index.ts:190-199 | the bridge calls made, in order; they are all right, and on normal return the live handles are as before |
| NativeHandles.Engine.Reshare | packages/mpc-native/src/index.ts:264-329 | the same, and the live handles are as before also when the native call throws |
| NativeHandles.CallKeepsTheRest | packages/mpc-native/src/index.ts:243-329 | the bridge calls of one engine call never free a dead handle nor make a live one again, and leave the live handles as they were but for a leaked temporary |
| NativeHandles.CallFreesItsOwnTemporary | packages/mpc-native/src/index.ts:190-199 | what an engine call frees it made itself in that call, and it frees it once |
| NativeHandles.RunConservesHandles | packages/mpc-native/src/index.ts:243-329 | over any run of engine calls mixed with the caller getting and freeing keyshares, no bridge call is wrong, every handle the caller owns is live, and the only others live are leaked temporaries |
| NativeHandles.CallIsGivenLiveIff | packages/mpc-native/src/index.ts:243-329 | every native call inside an engine call is given a live handle exactly if the handle of the keyshare is live wherever the engine needs it |
| NativeHandles.CallsAreGivenLiveIff | packages/mpc-native/src/index.ts:243-329 | over any run every native call is given a live handle exactly if each keyshare whose handle is needed is owned by the caller at that moment, or numbered like a leaked temporary |
| NativeHandles.CallsLeaveOwnedHandlesAlone | packages/mpc-native/src/index.ts:436-522 | an engine call in such a run neither frees nor makes again a handle that the caller owns |
| NativeHandles.RunIsCleanIff | packages/mpc-native/src/index.ts:190-199 | at the end exactly the caller's handles are live if and only if no refresh or sign threw after it made a temporary one |
| NativeHandles.ReturningRunIsClean | packages/mpc-native/src/index.ts:436-522 | in particular when refresh and sign calls return normally, whatever the reshare calls do |
| MpcRuntime.Global.Store | packages/mpc-types/src/store.ts:18-26 | every lookup gives the same store, made once |
| MpcRuntime.Global.ConfigureMpc | packages/mpc-types/src/runtime.ts:170-214 | reply and registered engine for every environment, previous engine and new engine |
| MpcRuntime.ConfigureDecision | packages/mpc-types/src/runtime.ts:84-214 | what is registered and answered, from the shape of the engine, both tags and the three environment variables: an engine is replaced when VULTISIG_STRICT_SINGLETON says 0, or in production unless it says 1 |
| MpcRuntime.Global.EnsureResume | packages/mpc-types/src/runtime.ts:241-255 | what a call returns or throws after its import, and what it leaves registered |
| MpcRuntime.RunKeepsTheWinner | packages/mpc-types/src/runtime.ts:170-214 | the engine after any run, from the list of offers alone: the first one where duplicates throw, else the first of the trailing tagged ones or the last offer |
| MpcRuntime.ReplacedExactlyWhen | packages/mpc-types/src/runtime.ts:176-214 | a registered engine is replaced exactly when duplicates are permitted and one of the two is not tagged |
| MpcRuntime.AllEnsuresAgree | packages/mpc-types/src/runtime.ts:237-256 | no two calls are given different engines in runs where duplicates throw or all engines are tagged |
| MpcRuntime.OnlyImportsFail | packages/mpc-types/src/runtime.ts:180-202 | with tagged engines only and no explicit strictness a call fails only through its import |
| MpcRuntime.MeanwhileRegistered | packages/mpc-types/src/runtime.ts:254-255 | when an engine was registered during the import: exactly when the call throws, returns that engine, or overwrites it |
| MpcRuntime.SecondEnsureThrowsWhenStrict | packages/mpc-types/src/runtime.ts:185-192 | under explicit strictness the second of two concurrent calls throws although an engine is registered |
| MemoizeAsync.Memoized.CallFor | packages/lib/utils/memoizeAsync.ts:19-48 | the maps after a call and its answer, also when the function throws before it returns a promise or first calls the memoized function for its own key, to any depth |
| MemoizeAsync.CallsExactlyWhen | packages/lib/utils/memoizeAsync.ts:19-48 | in every run the underlying function is called exactly if nothing is pending for the key and its latest success is older than the cache time; otherwise the caller is given the data of that success, or the pending promise, and nothing else changes |
| MemoizeAsync.Memoized.OnFulfilled | packages/lib/utils/memoizeAsync.ts:34-41 | the maps after a call succeeded |
| MemoizeAsync.Memoized.OnRejected | packages/lib/utils/memoizeAsync.ts:42-44 | the maps after a call failed |
| MemoizeAsync.SingleFlightIff | packages/lib/utils/memoizeAsync.ts:28-48 | at every moment at most one underlying call per key is in flight, if and only if the function never calls the memoized one for its own key, before it first waits, so that two levels return a promise |
| MemoizeAsync.PendingIsInFlightIff | packages/lib/utils/memoizeAsync.ts:28-48 | without such nested calls, keys are pending exactly while their calls are in flight if and only if no call ever threw synchronously |
| MemoizeAsync.SynchronousThrowPoisons | packages/lib/utils/memoizeAsync.ts:42-47 | when a thrown call is pending and nothing for its key is in flight, every later call for the key without a cache hit is given that rejection, and no underlying call is made again |
| MemoizeAsync.SynchronousThrowBlocks | packages/lib/utils/memoizeAsync.ts:42-47 | without nested calls that is so after every synchronous throw |
| MemoizeAsync.FlyingCallUnblocks | packages/lib/utils/memoizeAsync.ts:42-47 | a call in flight beside a thrown one frees the key again when it fails |
| MemoizeAsync.CallersGetFreshResults | packages/lib/utils/memoizeAsync.ts:23-26 | with a clock that does not run backwards every caller that is given data gets a result for its own key, completed no earlier than its start minus the cache time |
| MemoizeAsync.OneSuccessPerKey | packages/lib/utils/memoizeAsync.ts:24 | without a cache time, or with 0, and with one call in flight at a time, each key has one successful underlying call at most |
| CredentialStore.SealedOpens | packages/client-shared/src/credential-store.ts:66-98 | the layout of salt, nonce, tag and ciphertext reads back with the same passphrase |
| CredentialStore.Store.Get | packages/client-shared/src/credential-store.ts:119-136 | gives what the store holds exactly when its backend can be read, and nothing otherwise |
| CredentialStore.Store.WriteToFileStore | packages/client-shared/src/credential-store.ts:138-142 | the file holds the old accounts and the new one; only the new one when the old file could not be read |
| CredentialStore.Store.Set | packages/client-shared/src/credential-store.ts:144-159 | it succeeds exactly when the backend in use takes the password; then that reads back exactly unless the store insists on a file without a passphrase, and the other accounts are lost exactly when an existing file was unreadable |
| CredentialStore.Store.Del | packages/client-shared/src/credential-store.ts:161-172 | it fails exactly when a file in use cannot be opened or written; the account is unreadable afterwards exactly unless a keyring refused, and nothing becomes readable |
| CredentialStore.Store.WriteVaultCredentials | packages/client-shared/src/auth-setup.ts:188-196 | it succeeds exactly when the backend takes all passwords; both then read back exactly unless the passphrase is empty or the file was unreadable at the second write; other accounts stay |
| CredentialStore.Store.PersistVaultCredentials | packages/client-shared/src/auth-setup.ts:198-211 | it switches to the file exactly when the first attempt could not succeed, and when the second one then succeeds; readback as for one attempt; after a switch other accounts read from the file alone |
| CredentialStore.NoChangeIsLostIff | packages/client-shared/src/credential-store.ts:138-172 | for calls that overlap in any way, the file is always what their changes make one by one if and only if no call writes after it has missed a change to another account |
| CredentialStore.OverlappingSetsLoseTheFirstIff | packages/client-shared/src/credential-store.ts:138-142 | of two writes that both read before either writes, the first password is lost unless it changes nothing |
| CredentialStore.AccountsNeverCollide | packages/client-shared/src/credential-store.ts:176-203 | no two vaults share an account name and a vault's two names differ, whatever the ids contain |
| AuthSetup.UpsertRefinesMapUpdate | packages/client-shared/src/auth-setup.ts:213-223 | writing an entry is a map update on ids, and ids stay unique |
| AuthSetup.ClearCredentials | packages/client-shared/src/credential-store.ts:200-203 | with an obeying keyring, or the file, no password of the vault can be read any more; it fails exactly when a file in use cannot be rewritten |
| AuthSetup.Config.SaveVaultEntry | packages/client-shared/src/auth-setup.ts:213-223 | the list after the write, found by a search for the id |
| AuthSetup.Config.Logout | packages/client-shared/src/auth-setup.ts:264-285 | it succeeds exactly if it names what to clear and every rewrite goes through; vaults leave the list only when every deletion for them did, and then their passwords cannot be read |
| AddressBook.AddOneRefines | packages/sdk/src/AddressBookManager.ts:55-88 | one entry: the maps change as documented and stay free of duplicates |
| AddressBook.AddRefines | packages/sdk/src/AddressBookManager.ts:54-93 | adding keeps the first writer of a saved key and the last writer of a vault key, changes nothing else, and makes no duplicates |
| AddressBook.RemoveRefines | packages/sdk/src/AddressBookManager.ts:98-114 | removed addresses leave both maps, for every vault, and nothing else does |
| AddressBook.UpdateRefines | packages/sdk/src/AddressBookManager.ts:119-136 | a rename changes the saved entry, else the first listed vault entry of the address, else nothing |
| AddressBook.AddressBookManager.Init | packages/sdk/src/AddressBookManager.ts:28-36 | memory becomes what is stored, absent lists empty |
| AddressBook.AddressBookManager.AddAddressBookEntry | packages/sdk/src/AddressBookManager.ts:54-93 | the loop computes the lists of the specification, a completed call leaves storage equal to memory, and what each failing write leaves |
| AddressBook.AddressBookManager.RemoveAddressBookEntry | packages/sdk/src/AddressBookManager.ts:98-114 | the same for removal |
| AddressBook.AddressBookManager.UpdateAddressBookEntry | packages/sdk/src/AddressBookManager.ts:119-136 | the same for a rename, which writes only the list it changed |
| AddressBook.AddressBookManager.Clear | packages/sdk/src/AddressBookManager.ts:141-145 | both lists are empty in memory, and absent from storage once completed; what each failing removal leaves |
| AddressBook.OverlappingCallsEndPersisted | packages/sdk/src/AddressBookManager.ts:54-145 | however calls overlap, as long as none begins inside a clear and no storage call throws, once all have completed a fresh init rebuilds the memory |
| AddressBook.NextCallRepairsStorage | packages/sdk/src/AddressBookManager.ts:54-145 | whatever has failed before, and whatever calls under way have yet to fail, once an add, removal or clear that begins now and all later calls have completed a fresh init rebuilds the memory |
| AddressBook.WithoutClearNothingClears | packages/sdk/src/AddressBookManager.ts:54-136 | every run of add, remove and rename calls is among those |
| AddressBook.LateRemovalKeepsStepIff | packages/sdk/src/AddressBookManager.ts:141-145 | the last removal of a clear leaves storage equal to memory exactly if no vault entry came in meanwhile |
| AddressBook.ClearIsOvertaken | packages/sdk/src/AddressBookManager.ts:141-145 | a run in which an add completes between the two removals of a clear: all calls are done and the added vault entry is in memory only |
| Decimals.NumeralReads | packages/lib/utils/formatAmount.ts:30-34 | printed digits read as the number |
| Decimals.StrippedReads | packages/lib/utils/formatAmount.ts:102 | dropping trailing zeros only divides by a power of ten |
| Decimals.ToFixed3Reads | packages/lib/utils/formatAmount.ts:94 | the text of `toFixed(3)` reads as the nearest thousandth, the larger of two (section 21.1.3.3 of ECMA-262) |
| FormatAmount.MagnitudeScales | packages/lib/utils/formatAmount.ts:91-92 | the exponent brings the significand between 1 and 10 |
| FormatAmount.CarriedSignificand | packages/lib/utils/formatAmount.ts:97-100 | after a carry the second rounding gives 1.000 |
| FormatAmount.DecimalsExpand | packages/lib/utils/formatAmount.ts:104-109 | zeros spelled out or counted in subscript stand for the same zeros |
| FormatAmount.RoundedIsFourDigits | packages/lib/utils/formatAmount.ts:94-104 | digits and zero count together are the amount rounded to four significant digits, also after a carry |
| FormatAmount.FourDigitsAreClose | packages/lib/utils/formatAmount.ts:94 | that rounding is off by at most half a unit of the fourth digit |
| FormatAmount.TinyAmountReadsBack | packages/lib/utils/formatAmount.ts:88-112 | for every amount below half a cent, reading the printed decimals gives it rounded to four significant digits |
| FormatAmount.FormatTinyCurrencyAmount | packages/lib/utils/formatAmount.ts:88-112 | the in-place computation of exponent and digits prints those decimals between the affixes |
| FormatAmount.GetCurrencyAffixes | packages/lib/utils/formatAmount.ts:50-81 | prefix and suffix are the symbols before the number begins and those after, for every list of parts |
| FormatAmount.ScaledRange | packages/lib/utils/formatAmount.ts:125-130 | the recursion ends, with a value below a million that is at least one if anything was abbreviated |
| FormatAmount.SuffixIsExactIff | packages/lib/utils/formatAmount.ts:125-130 | value times suffix is the amount exactly below 10^15; from there on it is short by a factor of 10^9 or more |
| FormatAmount.FormatPrintsTheScaledValue | packages/lib/utils/formatAmount.ts:120-171 | the text is that of the scaled value with the last suffix, for all options |
| FormatAmount.LargeAmounts | packages/lib/utils/formatAmount.ts:125-130 | from a million to a billion the text is the number of millions with M, from a billion to 10^15 the number of billions with B, with the digits and the ticker of the options; from 10^15 on it is the text of a billionth of the amount |
| FormatAmount.SmallAmounts | packages/lib/utils/formatAmount.ts:131-171 | a currency amount below half a cent stands between the affixes of its upper-case currency and reads back as the rounded amount; every other one is printed with 2, 8 or 3 decimals as its options say |
| FormatAmount.CompactExactlyWhen | packages/lib/utils/formatAmount.ts:104-109 | zeros are counted in subscript exactly if the rounded amount is below a ten-thousandth |
| DerSignature.SetAt | packages/core/mpc/derSignature.ts:9 | the copied bytes replace exactly that stretch |
| DerSignature.EncodeDERInteger | packages/core/mpc/derSignature.ts:2-19 | the array is tag, length and contents with a sign octet where needed |
| DerSignature.EncodeDERSignature | packages/core/mpc/derSignature.ts:22-33 | the array is the sequence header and both integers |
| DerSignature.ContentsAreUnsigned | packages/core/mpc/derSignature.ts:6-11 | the two's complement number written is the unsigned number given, never a negative one (section 8.3 of ITU-T X.690) |
| DerSignature.SignatureReadsBackIff | packages/core/mpc/derSignature.ts:22-33 | a decoder with exact short-form lengths recovers both numbers if and only if both inputs are non-empty and the two integers take at most 127 bytes; otherwise it recovers nothing |
| DerSignature.MinimalIff | packages/core/mpc/derSignature.ts:6-11 | both integers are minimal exactly when neither input has a redundant leading zero byte |
| DerSignature.OctetsAreCanonical | packages/core/mpc/derSignature.ts:2-19 | without redundant zeros two inputs give the same octets exactly when they are the same number |
| ReshareCommittee.DeduplicatedIsTheUnion | packages/core/mpc/reshareCommittee.ts:6 | free of duplicates, same members, first-occurrence order |
| ReshareCommittee.FirstOccurrenceListIsUnique | packages/core/mpc/reshareCommittee.ts:6 | no other list has these members in that order |
| ReshareCommittee.CombineReshareCommittee | packages/core/mpc/reshareCommittee.ts:5-24 | the duplicate-free union in first-occurrence order, and strictly increasing index lists that select exactly the new and exactly the old members and together cover everything |
| ReshareCommittee.NewCommitteeComesFirst | packages/core/mpc/reshareCommittee.ts:11-17 | the index list of the new committee is 0, 1, 2, and so on |
| TerminalEscape.EscapeIsReversible | clients/cli/src/ui.ts:26-34 | a reader of the escapes recovers every string, lone surrogates included |
| TerminalEscape.EscapeEmitsNoControls | clients/cli/src/ui.ts:26-34 | no control character is emitted |
| TerminalEscape.EscapedForms | clients/cli/src/ui.ts:26-34 | a backslash is doubled, a control becomes a backslash, x and two hexadecimal digits in upper case, and everything else stays |
| TerminalEscape.EscapeLeavesPlainTextIff | clients/cli/src/ui.ts:26-34 | text stays as it is exactly when it holds no backslash and no control character |

## Left out

- The cryptography itself, protobuf and base64, and the MPC protocols inside wasm and Go: parameters with laws.
- The write locks around saves: without them there are more interleavings, and the theorems cover those too.
- Saves with `merge-metadata`, and edits other than the ordinary save that raises the revision.
- Storage adapters without compare-and-set, beyond the refusal that an import gives them.
- `vultContent.trim()`: the text of an import is the trimmed one. Dafny strings hold no lone surrogates, so neither
  do the texts that `JsonText` compares.
- `VaultImportSafety.DecodesIsUnique`: AES-GCM does not commit to its key, so a backup can be crafted to open to
  different vaults under two passwords; such a backup is outside.
- `VaultImportRuns.SharesNeverChange`: runs in which a backup crafted for two passwords takes part are outside;
  `VaultImportRuns.ReplacementKeepsTheShareItRead` says what holds for them.
- `VaultImportRuns.StoredShareNeverChanges`: the same runs are outside.
- `VaultImportOutcome.UndisturbedImport`: the user gives no password at the prompt; `VaultImportOutcome.AnswerOutcome`
  says what one does.
- The buffers into which an existing vault is decrypted for the conflict check are not modelled, and the source does
  not wipe them.
- Expiry of cached passwords while an import runs is the same as forgetting them; the timers are not modelled.
- `ImportRun` is one import between two awaits at a time; how many of them interleave is the business of the state
  machine in `VaultImport`.
- Whether an imported vault is of the fast or the secure kind: both take the same path through `save`.
- `FastVaultLifecycle.Step`: the three storage calls of `deleteVault` are one step, and `createFastVault` never
  generates the key of a vault that exists; a seedphrase may be used any number of times.
- `FastVaultLifecycle.VerifiedIsNotPending`: for callers that start no verification of a vault while a creation of it
  is under way, and no creation from its seedphrase beside or after a verification of it; `BecomesPendingIff` says
  what happens otherwise.
- Initialization, disposal and events of `Vultisig`, and the address book that its `clearVaults` empties as well.
- Exhaustion of the wasm memory and pointers of 2 GB and more: `Glue.Malloc` always finds room.
- `passArray8ToWasm0`, exceptions stored through the table, and the other generated methods: they use the same views
  and handles.
- The copies of the glue in packages/lib/schnorr and packages/lib/mldsa, which differ in names only.
- What a trap inside a native call leaves behind after its argument was taken out of its wrapper.
- Session handles of mpc-native: only keyshare handles are counted. Whether the key bytes of a keyshare were read
  before is an input of each call. A caller that frees a handle which it does not own is outside.
- `NativeHandles.CallIsGivenLiveIff`: what the native side does with a handle that is not live is not modelled.
- `__resetRuntimeStoreForTesting`, and the warning texts of `configureMpc`.
- JSON keys of `memoizeAsync` are opaque texts: arguments with the same text share a result, as in the source.
- File permissions, the environment fall-backs of the password getters, and prompting in auth setup.
- Aliasing between the lists in memory and a storage adapter that keeps references; storage calls of the address
  book take effect in the order in which they are made.
- `CredentialStore.Store.Set`: one call at a time, like the other methods of the store; overlapping calls are modelled
  on the accounts in the file only, which is read and written as a whole.
- `AuthSetup.Config.SaveVaultEntry`: a configuration file whose write throws is taken as unchanged.
- `MemoizeAsync.Memoized.CallFor`: all levels of a nested call read the same time.
- Binary floating point, `Intl` and `toUpperCase` in `formatAmount`: amounts are exact reals, the others parameters.
- `DerSignature.SignatureReadsBackIff`: the decoder reads short-form lengths only; what a decoder of long forms makes
  of longer output is not stated.
- CLI commands, MCP server, Electron, React applications, build configuration, chain tables and network clients.
