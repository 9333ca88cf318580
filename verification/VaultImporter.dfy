/**
 * The import as the source runs it: a task that updates the storage, the password cache and its own
 * decrypted buffer in place. Each method is the code between two awaits and does what the segment of
 * VaultImport says; `Valid` adds that an import that has ended leaves only zeros in its buffer.
 */
module VaultImporter {
  import opened Wrappers
  import opened Octets
  import opened VaultShare
  import opened VaultImport

  class Storage {
    var vaults: map<string, StoredVault>
    var active: Option<string>

    /** It may throw before it writes, or after it did. */
    method CompareAndSet(id: string, expected: Option<StoredVault>, value: StoredVault, input: Input)
      returns (replaced: bool, threw: bool)
      modifies this`vaults
      ensures var matches := (if id in old(vaults) then Some(old(vaults)[id]) else None) == expected;
              && threw == input.fault && replaced == (matches && !input.fault)
              && vaults == if matches && (!input.fault || input.late) then old(vaults)[id := value] else old(vaults)
    {
      var current := if id in vaults then Some(vaults[id]) else None;
      if current == expected && (!input.fault || input.late) {
        vaults := vaults[id := value];
      }
      return !input.fault && current == expected, input.fault;
    }
  }

  class PasswordCache {
    var entries: map<string, string>
    var enabled: bool
    var destroyed: bool

    ghost function State(): Passwords
      reads this
    {
      Passwords(entries, enabled, destroyed)
    }

    /** `threw` when the cache was destroyed. */
    method Set(id: string, password: string) returns (threw: bool)
      modifies this`entries
      ensures threw <==> destroyed
      ensures State() == if threw then old(State()) else old(State()).Set(id, password)
    {
      if destroyed {
        return true;
      }
      if enabled {
        entries := entries[id := password];
      }
      return false;
    }

    method Delete(id: string)
      modifies this`entries
      ensures State() == old(State()).Delete(id)
    {
      entries := entries - {id};
    }
  }

  ghost predicate AllZero(buffer: array<byte>)
    reads buffer
  {
    forall i :: 0 <= i < buffer.Length ==> buffer[i] == 0
  }

  class ImportRun {
    const codec: Codec
    const request: Request
    const storage: Storage
    const cache: PasswordCache
    var phase: Phase
    /** What was written, for the record: no step depends on it. */
    ghost var commit: Option<Commit>
    var notified: bool
    ghost var saveThrew: bool
    var cacheThrew: bool
    var handlerThrew: bool
    /** `decryptedVaultBytes` */
    var decrypted: array?<byte>

    ghost predicate Valid()
      reads this, decrypted
    {
      (phase.Succeeded? || phase.Failed?) && decrypted != null ==> AllZero(decrypted)
    }

    ghost function State(): (Env, Task)
      reads this, storage, cache
    {
      (Env(storage.vaults, storage.active, cache.State()),
       Task(request, phase, commit, notified, saveThrew, cacheThrew, handlerThrew))
    }

    constructor (codec: Codec, request: Request, storage: Storage, cache: PasswordCache)
      ensures Valid() && decrypted == null
      ensures this.codec == codec && this.request == request && this.storage == storage && this.cache == cache
      ensures State().1 == NewTask(request)
    {
      this.codec, this.request, this.storage, this.cache := codec, request, storage, cache;
      phase, commit, notified := Preparing, None, false;
      saveThrew, cacheThrew, handlerThrew := false, false, false;
      decrypted := null;
    }

    /** `decryptedVaultBytes?.fill(0)` */
    method WipeDecrypted()
      modifies decrypted
      ensures decrypted != null ==> AllZero(decrypted)
    {
      if decrypted != null {
        var i := 0;
        while i < decrypted.Length
          invariant 0 <= i <= decrypted.Length
          invariant forall k :: 0 <= k < i ==> decrypted[k] == 0
        {
          decrypted[i] := 0;
          i := i + 1;
        }
      }
    }

    /** Moves to `next`; an import that ends wipes its buffer first, as its `finally` does. */
    method Enter(next: Phase)
      modifies this`phase, decrypted
      ensures phase == next
      ensures (next.Succeeded? || next.Failed?) && decrypted != null ==> AllZero(decrypted)
    {
      if next.Succeeded? || next.Failed? {
        WipeDecrypted();
      }
      phase := next;
    }

    /** `prepareVaultImport`: parse, decrypt into the buffer, decode, and re-encrypt a legacy backup. */
    method Prepare()
      requires Valid() && phase.Preparing? && decrypted == null
      modifies this`phase, this`decrypted
      ensures Valid() && (decrypted != null ==> fresh(decrypted))
      ensures forall input :: State() == Segment(codec, old(State()).0, old(State()).1, input)
    {
      var parsed := codec.parse(request.text);
      if parsed.None? {
        Enter(Failed(InvalidFileFormat));
        return;
      }
      var container := parsed.value;
      var plain := container.vault;
      var content, migrated := request.text, false;
      if container.isEncrypted {
        var unsealed := DecryptImport(codec, container.vault, request.password);
        if unsealed.Err? {
          Enter(Failed(unsealed.error));
          return;
        }
        plain := unsealed.value;
        decrypted := new byte[|plain|](i requires 0 <= i < |plain| => plain[i]);
        migrated := !IsPbkdf2(container.vault);
      }
      var vault := DecodeImport(codec, plain);
      if vault.Err? {
        Enter(Failed(vault.error));
        return;
      }
      if migrated {
        var sealed := codec.seal(request.password.value, request.salt, decrypted[..]);
        assert decrypted[..] == plain;
        content := codec.serialize(container.(vault := sealed));
      }
      Enter(Reading(Prepared(vault.value, container.isEncrypted, content, migrated)));
    }

    /** The verdict of `validateReplacement`, test by test. */
    method Validate(existing: CoreVault, imported: CoreVault) returns (error: Option<ImportError>)
      ensures error == ValidateReplacement(codec.keyOrder, existing, imported)
    {
      if existing.localPartyId != imported.localPartyId {
        return Some(OtherDeviceShare);
      }
      var sameKeyDomains :=
        && existing.ecdsa == imported.ecdsa && existing.eddsa == imported.eddsa
        && existing.publicKeyMldsa == imported.publicKeyMldsa
        && RecordsEqual(codec.keyOrder, existing.chainPublicKeys, imported.chainPublicKeys);
      if !sameKeyDomains {
        return Some(IncompatibleVault);
      }
      var sameSigners := ArraysEqual(existing.signers, imported.signers);
      var sameShare :=
        && sameSigners && existing.hexChainCode == imported.hexChainCode && existing.libType == imported.libType
        && existing.resharePrefix == imported.resharePrefix && existing.createdAt == imported.createdAt
        && RecordsEqual(codec.keyOrder, existing.keyShares, imported.keyShares)
        && RecordsEqual(codec.keyOrder, existing.chainKeyShares, imported.chainKeyShares)
        && existing.keyShareMldsa == imported.keyShareMldsa;
      error := if sameShare then None else Some(StaleShare);
    }

    /** The instance with its baseline, and the test for an adapter that can compare and set. */
    method BuildInstance(prepared: Prepared, baseline: Option<StoredVault>) returns (next: Phase)
      ensures next == StartSave(request, prepared, baseline)
    {
      if baseline.Some? {
        var revision := if baseline.value.revision.Some? then baseline.value.revision.value else 0;
        if revision < 0 || revision > MAX_SAFE_INTEGER {
          return Failed(CorruptedData);
        }
      }
      if !request.canCompareAndSet {
        return Failed(PersistenceFailed);
      }
      next := Saving(prepared, baseline);
    }

    /** The rest of `validateImportConflict` behind `decodeStoredVault`. */
    method Conclude(prepared: Prepared, existing: StoredVault, decoded: Result<CoreVault, ImportError>)
      returns (next: Phase)
      ensures next == AfterDecode(codec, request, prepared, existing, decoded)
    {
      if decoded.Err? {
        if request.resolution != ReplaceUnvalidated {
          return Failed(decoded.error);
        }
      } else {
        var error := Validate(decoded.value, prepared.vault);
        if error.Some? {
          return Failed(error.value);
        }
        if request.resolution == Reject {
          return Failed(DuplicateVault);
        }
      }
      next := BuildInstance(prepared, Some(existing));
    }

    /** The loop over the password candidates, cached one first. */
    method TryCandidates(text: string, cached: Option<string>)
      returns (decoded: Option<CoreVault>, candidates: seq<string>)
      ensures candidates == Candidates(cached, request.password)
      ensures decoded == TryPasswords(codec, text, candidates)
    {
      candidates := [];
      if Truthy(cached) {
        candidates := [cached.value];
      }
      if Truthy(request.password) && request.password != cached {
        candidates := candidates + [request.password.value];
      }
      for i := 0 to |candidates|
        invariant TryPasswords(codec, text, candidates) == TryPasswords(codec, text, candidates[i..])
      {
        decoded := DecodePayload(codec, text, Some(candidates[i]));
        if decoded.Some? {
          return;
        }
        assert candidates[i..][1..] == candidates[i + 1..];
      }
      decoded := None;
    }

    /** `validateImportConflict` up to the password prompt. */
    method CheckStored(prepared: Prepared, existing: StoredVault, cached: Option<string>) returns (next: Phase)
      ensures next == CheckConflict(codec, request, prepared, Some(existing), cached)
    {
      var parsed := codec.parse(existing.content);
      if parsed == None {
        next := Conclude(prepared, existing, Err(IncompatibleVault));
        return;
      }
      if !parsed.value.isEncrypted {
        var plain := DecodePayload(codec, existing.content, None);
        next := Conclude(prepared, existing, if plain.Some? then Ok(plain.value) else Err(IncompatibleVault));
        return;
      }
      var decoded, tried := TryCandidates(existing.content, cached);
      if decoded.Some? {
        next := Conclude(prepared, existing, Ok(decoded.value));
      } else if request.canPrompt {
        next := Prompting(prepared, existing, tried);
      } else {
        next := Conclude(prepared, existing, Err(ExistingVaultPasswordRequired));
      }
    }

    /** `storage.get`, then the conflict check as far as it gets without asking for a password. */
    method ReadExisting(input: Input)
      requires Valid() && phase.Reading?
      modifies this`phase, decrypted
      ensures Valid()
      ensures State() == Segment(codec, old(State()).0, old(State()).1, input)
    {
      if input.fault {
        Enter(Failed(PersistenceFailed));
        return;
      }
      var prepared := phase.prepared;
      var id := VaultId(prepared);
      var next: Phase;
      if id in storage.vaults {
        var cached := if !cache.destroyed && id in cache.entries then Some(cache.entries[id]) else None;
        next := CheckStored(prepared, storage.vaults[id], cached);
      } else {
        next := BuildInstance(prepared, None);
      }
      Enter(next);
    }

    /** The end of `decodeStoredVault`, with the user's answer. */
    method ResumeAfterPrompt(input: Input)
      requires Valid() && phase.Prompting?
      modifies this`phase, decrypted
      ensures Valid()
      ensures State() == Segment(codec, old(State()).0, old(State()).1, input)
    {
      var Prompting(prepared, existing, tried) := phase;
      var decoded: Option<CoreVault> := None;
      if Truthy(input.answer) && input.answer.value !in tried {
        decoded := DecodePayload(codec, existing.content, input.answer);
      }
      var next: Phase;
      if decoded.Some? {
        next := Conclude(prepared, existing, Ok(decoded.value));
      } else {
        next := Conclude(prepared, existing, Err(ExistingVaultPasswordRequired));
      }
      Enter(next);
    }

    /** `getVaultRevision`; None where it throws. */
    method GetVaultRevision(record: StoredVault) returns (revision: Option<int>)
      ensures revision == if RevisionIsValid(record) then Some(Revision(record)) else None
    {
      var value := if record.revision.Some? then record.revision.value else 0;
      revision := if 0 <= value <= MAX_SAFE_INTEGER then Some(value) else None;
    }

    /** The read of `saveUnlocked` and its comparison of revisions. */
    method ReadForSave(input: Input)
      requires Valid() && phase.Saving?
      modifies this`phase, decrypted
      ensures Valid()
      ensures State() == Segment(codec, old(State()).0, old(State()).1, input)
    {
      if input.fault {
        Enter(Failed(PersistenceFailed));
        return;
      }
      var Saving(prepared, baseline) := phase;
      var id := VaultId(prepared);
      var current: Option<StoredVault>, expected: Option<int>, actual: Option<int> := None, None, None;
      if baseline.Some? {
        expected := GetVaultRevision(baseline.value);
        if expected == None {
          Enter(Failed(PersistenceFailed));
          return;
        }
      }
      if id in storage.vaults {
        current := Some(storage.vaults[id]);
        actual := GetVaultRevision(current.value);
        if actual == None {
          Enter(Failed(PersistenceFailed));
          return;
        }
      }
      if expected != actual {
        Enter(Failed(PersistenceFailed));
        return;
      }
      Enter(Comparing(prepared, baseline, current));
    }

    /** `storage.compareAndSet` and the code of `saveUnlocked` behind it. */
    method CommitRecord(input: Input)
      requires Valid() && phase.Comparing?
      modifies this`phase, this`commit, this`saveThrew, storage`vaults, decrypted
      ensures Valid()
      ensures State() == Segment(codec, old(State()).0, old(State()).1, input)
    {
      var Comparing(prepared, baseline, current) := phase;
      var written := NewRecord(prepared, current, input.now);
      ghost var matched := State().0.Lookup(VaultId(prepared)) == current;
      var replaced, threw := storage.CompareAndSet(VaultId(prepared), current, written, input);
      if threw {
        ghost var wrote := matched && input.late;
        NoteCommit(wrote, Commit(prepared, baseline, current, written));
        Enter(Failed(PersistenceFailed));
        return;
      }
      if !replaced {
        Enter(Failed(PersistenceFailed));
        return;
      }
      commit := Some(Commit(prepared, baseline, current, written));
      if RevisionIsValid(written) {
        Enter(Durable(prepared, baseline));
      } else {
        Enter(Failed(PersistenceFailed));
      }
    }

    /** The history of a write that threw: the source does not learn whether it took effect. */
    ghost method NoteCommit(wrote: bool, c: Commit)
      modifies this`commit, this`saveThrew
      ensures commit == if wrote then Some(c) else old(commit)
      ensures saveThrew == (wrote || old(saveThrew))
    {
      if wrote {
        commit, saveThrew := Some(c), true;
      }
    }

    /** The password state is changed only after the record is durable. */
    method ChangePasswordState(prepared: Prepared, existing: Option<StoredVault>) returns (threw: bool)
      modifies cache`entries
      ensures threw == CacheThrows(old(cache.State()), request, prepared)
      ensures cache.State() ==
              if threw then old(cache.State()) else UpdateCache(old(cache.State()), request, prepared, existing)
    {
      threw := false;
      if Truthy(request.password) && prepared.isEncrypted {
        threw := cache.Set(VaultId(prepared), request.password.value);
      } else if !prepared.isEncrypted && existing.Some? && existing.value.isEncrypted {
        cache.Delete(VaultId(prepared));
      }
    }

    /** The password cache and the migration notice. */
    method FinishSave(input: Input)
      requires Valid() && phase.Durable?
      modifies this`phase, this`notified, this`cacheThrew, this`handlerThrew, cache`entries, decrypted
      ensures Valid()
      ensures State() == Segment(codec, old(State()).0, old(State()).1, input)
    {
      var Durable(prepared, existing) := phase;
      var threw := ChangePasswordState(prepared, existing);
      if threw {
        cacheThrew := true;
        Enter(Failed(CorruptedData));
        return;
      }
      if prepared.migrated {
        notified := true;
        if input.handlerThrows {
          handlerThrew := true;
          Enter(Failed(CorruptedData));
          return;
        }
      }
      Enter(Activating(prepared));
    }

    method WriteActivePointer(input: Input)
      requires Valid() && phase.Activating?
      modifies this`phase, storage`active, decrypted
      ensures Valid()
      ensures State() == Segment(codec, old(State()).0, old(State()).1, input)
    {
      var prepared := phase.prepared;
      if !input.fault || input.late {
        storage.active := Some(VaultId(prepared));
      }
      if input.fault {
        Enter(Failed(PersistenceFailed));
        return;
      }
      Enter(Succeeded(prepared));
    }
  }
}
