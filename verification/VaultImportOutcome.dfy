/** When a conflict lets an import go on to the save, and what becomes of an import that is left alone. */
module VaultImportOutcome {
  import opened Wrappers
  import opened Octets
  import opened StableSort
  import opened VaultShare
  import opened VaultImport
  import opened VaultImportSafety
  import opened VaultImportRuns

  // ----- the conflict check -----

  /** What the comparison of shares asks of the key order and of the decoded records. */
  ghost predicate Comparable(codec: Codec, prepared: Prepared) {
    && DecodesWellFormed(codec) && WellFormedVault(prepared.vault)
    && TotalPreorder(codec.keyOrder) && OrderIsAntisymmetric(codec.keyOrder)
  }

  /** An import may replace a record that was read to the same share; one that cannot be read only unvalidated. */
  ghost predicate MayReplace(request: Request, prepared: Prepared, read: Result<CoreVault, ImportError>) {
    match read
    case Ok(v) => SameShare(v, prepared.vault) && request.resolution != Reject
    case Err(_) => request.resolution == ReplaceUnvalidated
  }

  /** Why it may not, in the order of precedence. */
  ghost predicate RefusedWith(prepared: Prepared, read: Result<CoreVault, ImportError>, error: ImportError) {
    match read
    case Err(e) => error == e
    case Ok(v) =>
      && (error == OtherDeviceShare <==> v.localPartyId != prepared.vault.localPartyId)
      && (error == IncompatibleVault <==>
            v.localPartyId == prepared.vault.localPartyId && !SameKeyDomains(v, prepared.vault))
      && (error == DuplicateVault <==> SameShare(v, prepared.vault))
      && (error == StaleShare <==>
            && v.localPartyId == prepared.vault.localPartyId && SameKeyDomains(v, prepared.vault)
            && !SameShare(v, prepared.vault))
  }

  /** The end of a conflict check that has read the stored record, or could not. */
  ghost predicate IsOutcome(request: Request, prepared: Prepared, r: StoredVault,
                            read: Result<CoreVault, ImportError>, next: Phase)
  {
    var safe := 0 <= Revision(r) <= 9007199254740991;
    && (next == Saving(prepared, Some(r)) <==> MayReplace(request, prepared, read) && safe && request.canCompareAndSet)
    && (!MayReplace(request, prepared, read) ==> next.Failed? && RefusedWith(prepared, read, next.error))
    && (MayReplace(request, prepared, read) && !safe ==> next == Failed(CorruptedData))
    && (MayReplace(request, prepared, read) && safe && !request.canCompareAndSet ==> next == Failed(PersistenceFailed))
  }

  lemma DecodedOutcome(codec: Codec, request: Request, prepared: Prepared, r: StoredVault,
                       read: Result<CoreVault, ImportError>)
    requires Comparable(codec, prepared) && (read.Ok? ==> WellFormedVault(read.value))
    ensures IsOutcome(request, prepared, r, read, AfterDecode(codec, request, prepared, r, read))
  {
    if read.Ok? {
      ValidateReplacementVerdict(codec.keyOrder, read.value, prepared.vault);
    }
  }

  /** The stored share as the cached password gives it, or else the imported one. */
  function ReadAtHand(codec: Codec, text: string, cached: Option<string>, imported: Option<string>)
    : Option<CoreVault>
  {
    var first := DecodePayload(codec, text, cached);
    if first.Some? then first else DecodePayload(codec, text, imported)
  }

  predicate IsEncrypted(codec: Codec, r: StoredVault) {
    codec.parse(r.content).Some? && codec.parse(r.content).value.isEncrypted
  }

  lemma CandidatesReadAtHand(codec: Codec, r: StoredVault, cached: Option<string>, imported: Option<string>)
    requires IsEncrypted(codec, r)
    ensures TryPasswords(codec, r.content, Candidates(cached, imported))
            == ReadAtHand(codec, r.content, cached, imported)
  {
    var candidates, text := Candidates(cached, imported), r.content;
    if |candidates| == 2 {
      assert candidates[1..] == [imported.value] && [imported.value][1..] == [];
      assert TryPasswords(codec, text, [imported.value]) == DecodePayload(codec, text, imported);
      assert candidates[0] == cached.value;
    } else if |candidates| == 1 {
      assert candidates[1..] == [];
      assert TryPasswords(codec, text, candidates) == DecodePayload(codec, text, Some(candidates[0]));
    }
  }

  /**
   * Every way in which the conflict check can end for a stored record: with a prompt exactly if the record is
   * locked and the user can be asked, and otherwise as its contents and the chosen resolution demand.
   */
  lemma ConflictOutcome(codec: Codec, request: Request, prepared: Prepared, r: StoredVault, cached: Option<string>)
    requires Comparable(codec, prepared)
    ensures var next := CheckConflict(codec, request, prepared, Some(r), cached);
            var read := ReadAtHand(codec, r.content, cached, request.password);
            var locked := read.None? && IsEncrypted(codec, r);
            && (next.Prompting? <==> locked && request.canPrompt)
            && (next.Prompting? ==> next.prepared == prepared && next.existing == r)
            && (!next.Prompting? ==>
                  IsOutcome(request, prepared, r,
                            if read.Some? then Ok(read.value)
                            else Err(if locked then ExistingVaultPasswordRequired else IncompatibleVault), next))
  {
    var read := ReadAtHand(codec, r.content, cached, request.password);
    if IsEncrypted(codec, r) {
      CandidatesReadAtHand(codec, r, cached, request.password);
    }
    if read.Some? {
      assert Decodes(codec, r.content, read.value);
      DecodedIsWellFormed(codec, r.content, read.value);
      DecodedOutcome(codec, request, prepared, r, Ok(read.value));
    } else {
      DecodedOutcome(codec, request, prepared, r, Err(IncompatibleVault));
      DecodedOutcome(codec, request, prepared, r, Err(ExistingVaultPasswordRequired));
    }
  }

  /** A vault that is not stored goes on to the save exactly if the adapter can protect it. */
  lemma AbsentOutcome(codec: Codec, request: Request, prepared: Prepared, cached: Option<string>)
    ensures CheckConflict(codec, request, prepared, None, cached)
            == if request.canCompareAndSet then Saving(prepared, None) else Failed(PersistenceFailed)
  {
  }

  /** After a prompt, whose record none of the tried passwords opened, the answer decides. */
  lemma AnswerOutcome(codec: Codec, request: Request, prepared: Prepared, r: StoredVault,
                      tried: seq<string>, answer: Option<string>)
    requires Comparable(codec, prepared) && Locked(codec, r, tried)
    ensures var read := DecodePayload(codec, r.content, answer);
            IsOutcome(request, prepared, r,
                      if read.Some? then Ok(read.value) else Err(ExistingVaultPasswordRequired),
                      AnswerPrompt(codec, request, prepared, r, tried, answer))
  {
    var read := DecodePayload(codec, r.content, answer);
    if read.Some? {
      assert Decodes(codec, r.content, read.value);
      DecodedIsWellFormed(codec, r.content, read.value);
      DecodedOutcome(codec, request, prepared, r, Ok(read.value));
    } else {
      DecodedOutcome(codec, request, prepared, r, Err(ExistingVaultPasswordRequired));
    }
  }

  // ----- storage that fails or has changed -----

  /**
   * The re-read of the save goes on to the write exactly if the read returned and found what the import was checked
   * against, as far as revisions tell: no record where there was none, or one with the same safe revision.
   */
  lemma SaveOutcome(codec: Codec, env: Env, task: Task, input: Input)
    requires task.phase.Saving?
    ensures var Saving(p, baseline) := task.phase;
            var id := p.vault.ecdsa;
            var found := if id in env.vaults then Some(env.vaults[id]) else None;
            var (env', task') := Segment(codec, env, task, input);
            && env' == env
            && (task'.phase == Comparing(p, baseline, found) <==>
                  && !input.fault && (baseline.Some? <==> found.Some?)
                  && (found.Some? ==>
                        && 0 <= Revision(found.value) <= 9007199254740991
                        && Revision(found.value) == Revision(baseline.value)))
            && (task'.phase != Comparing(p, baseline, found) ==> task'.phase == Failed(PersistenceFailed))
  {
  }

  /** The write takes place exactly if the record is still the one that was re-read and the call gets that far. */
  lemma WriteOutcome(codec: Codec, env: Env, task: Task, input: Input)
    requires task.phase.Comparing?
    ensures var Comparing(p, baseline, current) := task.phase;
            var id := p.vault.ecdsa;
            var writes := env.Lookup(id) == current && (!input.fault || input.late);
            var revision := if current.Some? then Revision(current.value) + 1 else 1;
            var (env', task') := Segment(codec, env, task, input);
            && env'.active == env.active && env'.passwords == env.passwords
            && env'.vaults == (if writes then
                                 env.vaults[id := StoredVault(p.content, p.isEncrypted, Some(revision), p.vault.name,
                                                              input.now)]
                               else env.vaults)
            && (task'.phase == Durable(p, baseline) <==>
                  writes && !input.fault && 0 <= revision <= 9007199254740991)
            && (task'.phase != Durable(p, baseline) ==> task'.phase == Failed(PersistenceFailed))
  {
  }

  /** A read or a pointer write that throws ends the import; the pointer may have been written all the same. */
  lemma FaultOutcome(codec: Codec, env: Env, task: Task, input: Input)
    requires input.fault && (task.phase.Reading? || task.phase.Activating?)
    ensures var (env', task') := Segment(codec, env, task, input);
            && task' == task.(phase := Failed(PersistenceFailed))
            && env'.vaults == env.vaults && env'.passwords == env.passwords
            && env'.active == if task.phase.Activating? && input.late then Some(task.phase.prepared.vault.ecdsa)
                              else env.active
  {
  }

  // ----- an import that is left alone -----

  /** The next segments of an import, one after the other. */
  function Segments(codec: Codec, env: Env, task: Task, n: nat, now: int): (Env, Task)
    decreases n
  {
    if n == 0 then (env, task)
    else
      var (env', task') := Segment(codec, env, task, Quiet(now));
      Segments(codec, env', task', n - 1, now)
  }

  function WithJob(w: World, k: nat, instance: nat, end: (Env, Task)): World {
    World(end.0.vaults, end.0.active, w.caches[instance := end.0.passwords], w.jobs[k := Job(instance, end.1)])
  }

  lemma {:induction false} AdvancesAreSegments(codec: Codec, w: World, k: nat, n: nat, now: int)
    requires CanAdvance(w, k)
    ensures var Job(instance, task) := w.jobs[k];
            Run(codec, w, Advances(k, n, now))
            == WithJob(w, k, instance, Segments(codec, EnvOf(w, instance), task, n, now))
    decreases n
  {
    var Job(instance, task) := w.jobs[k];
    if n == 0 {
      assert w.caches[instance := w.caches[instance]] == w.caches && w.jobs[k := w.jobs[k]] == w.jobs;
    } else {
      RunUnfolds(codec, w, Advance(k, Quiet(now)), Advances(k, n - 1, now));
      var w' := Step(codec, w, Advance(k, Quiet(now)));
      AdvancesAreSegments(codec, w', k, n - 1, now);
      var end := Segments(codec, EnvOf(w', instance), w'.jobs[k].task, n - 1, now);
      assert w'.caches[instance := end.0.passwords] == w.caches[instance := end.0.passwords];
      assert w'.jobs[k := Job(instance, end.1)] == w.jobs[k := Job(instance, end.1)];
    }
  }

  /** The password cache after an import that became durable. */
  ghost predicate CacheFollows(before: Passwords, after: Passwords, request: Request, p: Prepared,
                               replaced: Option<StoredVault>)
  {
    && after.enabled == before.enabled && after.destroyed == before.destroyed
    && (forall id :: id != p.vault.ecdsa ==>
          (id in after.entries <==> id in before.entries)
          && (id in after.entries ==> after.entries[id] == before.entries[id]))
    && (p.isEncrypted && before.enabled && request.password.Some? && request.password.value != "" ==>
          p.vault.ecdsa in after.entries && after.entries[p.vault.ecdsa] == request.password.value)
    && (!p.isEncrypted && replaced.Some? && replaced.value.isEncrypted ==> p.vault.ecdsa !in after.entries)
    && (!p.isEncrypted && !(replaced.Some? && replaced.value.isEncrypted) ==> after == before)
    && (p.isEncrypted && !before.enabled ==> after == before)
  }

  /** The cache that a password update would have to write was destroyed. */
  predicate CannotRemember(env: Env, request: Request, p: Prepared) {
    p.isEncrypted && request.password.Some? && request.password.value != "" && env.passwords.destroyed
  }

  lemma CacheUpdateFollows(passwords: Passwords, request: Request, p: Prepared, replaced: Option<StoredVault>)
    requires p.isEncrypted ==> Truthy(request.password)
    ensures CacheFollows(passwords, UpdateCache(passwords, request, p, replaced), request, p, replaced)
  {
  }

  lemma {:induction false} EndedStays(codec: Codec, env: Env, task: Task, n: nat, now: int)
    requires Settled(task.phase)
    ensures Segments(codec, env, task, n, now) == (env, task)
    decreases n
  {
    if n > 0 {
      EndedStays(codec, env, task, n - 1, now);
    }
  }

  /** The last two segments, behind the durable write. */
  lemma SavedEnds(codec: Codec, env: Env, task: Task, n: nat, now: int)
    requires n >= 2
    requires task.phase.Durable? && (task.phase.prepared.isEncrypted ==> Truthy(task.request.password))
    ensures var (env', task') := Segments(codec, env, task, n, now);
            var p := task.phase.prepared;
            && env'.vaults == env.vaults && Settled(task'.phase)
            && (task'.phase.Succeeded? <==> !CannotRemember(env, task.request, p))
            && (task'.phase.Succeeded? ==>
                  && task'.phase.prepared == p && env'.active == Some(p.vault.ecdsa)
                  && task'.notified == (task.notified || p.migrated)
                  && CacheFollows(env.passwords, env'.passwords, task.request, p, task.phase.replaced))
  {
    var p := task.phase.prepared;
    CacheUpdateFollows(env.passwords, task.request, p, task.phase.replaced);
    var (env1, task1) := AfterSave(env, task, Quiet(now));
    assert Segment(codec, env, task, Quiet(now)) == (env1, task1);
    assert Segments(codec, env, task, n, now) == Segments(codec, env1, task1, n - 1, now);
    if task1.phase.Failed? {
      EndedStays(codec, env1, task1, n - 1, now);
    } else {
      var env2, task2 := env1.(active := Some(VaultId(p))), task1.(phase := Succeeded(p));
      assert Segment(codec, env1, task1, Quiet(now)) == (env2, task2);
      EndedStays(codec, env2, task2, n - 2, now);
    }
  }

  /** An import at its save, with nobody else writing: how the remaining four segments end. */
  lemma SavingEnds(codec: Codec, env: Env, task: Task, n: nat, now: int)
    requires n >= 4
    requires task.phase.Saving? && task.phase.baseline == env.Lookup(task.phase.prepared.vault.ecdsa)
    requires task.phase.baseline.Some? ==> 0 <= Revision(task.phase.baseline.value) <= 9007199254740991
    requires task.phase.prepared.isEncrypted ==> Truthy(task.request.password)
    ensures var p := task.phase.prepared;
            var id := p.vault.ecdsa;
            var revision := if id in env.vaults then Revision(env.vaults[id]) + 1 else 1;
            var (env', task') := Segments(codec, env, task, n, now);
            && env'.vaults == env.vaults[id := StoredVault(p.content, p.isEncrypted, Some(revision), p.vault.name, now)]
            && Settled(task'.phase)
            && (task'.phase.Succeeded? <==>
                  revision <= 9007199254740991 && !CannotRemember(env, task.request, p))
            && (task'.phase.Succeeded? ==>
                  && task'.phase.prepared == p && env'.active == Some(id)
                  && task'.notified == (task.notified || p.migrated)
                  && CacheFollows(env.passwords, env'.passwords, task.request, p, env.Lookup(id)))
  {
    var p := task.phase.prepared;
    var task1 := task.(phase := Comparing(p, task.phase.baseline, env.Lookup(VaultId(p))));
    assert Segment(codec, env, task, Quiet(now)) == (env, task1);
    assert Segments(codec, env, task, n, now) == Segments(codec, env, task1, n - 1, now);
    var (env2, task2) := CompareAndSet(env, task1, Quiet(now));
    assert Segment(codec, env, task1, Quiet(now)) == (env2, task2);
    assert Segments(codec, env, task1, n - 1, now) == Segments(codec, env2, task2, n - 2, now);
    if task2.phase.Durable? {
      SavedEnds(codec, env2, task2, n - 2, now);
    } else {
      EndedStays(codec, env2, task2, n - 2, now);
    }
  }

  // ----- the whole import -----

  /** The stored record, if there is one, lets this import replace it without asking the user. */
  ghost predicate Admitted(codec: Codec, w: World, instance: nat, request: Request, p: Prepared)
    requires instance in w.caches
  {
    p.vault.ecdsa in w.vaults ==>
      var r := w.vaults[p.vault.ecdsa];
      var read := ReadAtHand(codec, r.content, w.caches[instance].Get(p.vault.ecdsa), request.password);
      && 0 <= Revision(r) < 9007199254740991
      && (read.Some? ==> SameShare(read.value, p.vault) && request.resolution != Reject)
      && (read.None? ==> request.resolution == ReplaceUnvalidated)
  }

  /** A successful end: the new record, the pointer, the notice and the password cache. */
  ghost predicate IsImported(env: Env, env': Env, request: Request, p: Prepared, notified: bool, now: int) {
    var id := p.vault.ecdsa;
    var revision := if id in env.vaults then Revision(env.vaults[id]) + 1 else 1;
    && env'.vaults == env.vaults[id := StoredVault(p.content, p.isEncrypted, Some(revision), p.vault.name, now)]
    && env'.active == Some(id) && notified == p.migrated
    && CacheFollows(env.passwords, env'.passwords, request, p, env.Lookup(id))
  }

  /** An import that was refused, or is at its save. */
  lemma CheckedEnds(codec: Codec, env: Env, task: Task, p: Prepared, n: nat, now: int)
    requires n >= 4 && (task.phase.Failed? || task.phase == Saving(p, env.Lookup(p.vault.ecdsa)))
    requires !task.notified && (p.isEncrypted ==> Truthy(task.request.password))
    requires task.phase.Saving? && p.vault.ecdsa in env.vaults ==>
               0 <= Revision(env.vaults[p.vault.ecdsa]) <= 9007199254740991
    ensures var (env', task') := Segments(codec, env, task, n, now);
            && (task'.phase.Succeeded? <==>
                  && task.phase.Saving? && !CannotRemember(env, task.request, p)
                  && (p.vault.ecdsa in env.vaults ==> Revision(env.vaults[p.vault.ecdsa]) < 9007199254740991))
            && (task'.phase.Succeeded? ==> IsImported(env, env', task.request, p, task'.notified, now))
  {
    if task.phase.Failed? {
      EndedStays(codec, env, task, n, now);
    } else {
      SavingEnds(codec, env, task, n, now);
    }
  }

  /** From the prompt on, which gives no password. */
  lemma PromptingEnds(codec: Codec, env: Env, task: Task, now: int)
    requires task.phase.Prompting? && !task.notified && Comparable(codec, task.phase.prepared)
    requires env.Lookup(task.phase.prepared.vault.ecdsa) == Some(task.phase.existing)
    requires Locked(codec, task.phase.existing, task.phase.tried)
    requires task.phase.prepared.isEncrypted ==> Truthy(task.request.password)
    ensures var p := task.phase.prepared;
            var (env', task') := Segments(codec, env, task, 5, now);
            && (task'.phase.Succeeded? <==>
                  && task.request.resolution == ReplaceUnvalidated && task.request.canCompareAndSet
                  && 0 <= Revision(task.phase.existing) < 9007199254740991
                  && !CannotRemember(env, task.request, p))
            && (task'.phase.Succeeded? ==> IsImported(env, env', task.request, p, task'.notified, now))
  {
    var Prompting(p, r, tried) := task.phase;
    AnswerOutcome(codec, task.request, p, r, tried, None);
    var task1 := task.(phase := AnswerPrompt(codec, task.request, p, r, tried, None));
    assert Segment(codec, env, task, Quiet(now)) == (env, task1);
    assert Segments(codec, env, task, 5, now) == Segments(codec, env, task1, 4, now);
    CheckedEnds(codec, env, task1, p, 4, now);
  }

  /** From the read of the stored record on; the user, if asked, gives no password. */
  lemma ReadingEnds(codec: Codec, w: World, instance: nat, task: Task, now: int)
    requires instance in w.caches && task.phase.Reading? && !task.notified
    requires Comparable(codec, task.phase.prepared)
    requires task.phase.prepared.isEncrypted ==> Truthy(task.request.password)
    ensures var p, env := task.phase.prepared, EnvOf(w, instance);
            var (env', task') := Segments(codec, env, task, 6, now);
            && (task'.phase.Succeeded? <==>
                  && task.request.canCompareAndSet && Admitted(codec, w, instance, task.request, p)
                  && !CannotRemember(env, task.request, p))
            && (task'.phase.Succeeded? ==> IsImported(env, env', task.request, p, task'.notified, now))
  {
    var p, env := task.phase.prepared, EnvOf(w, instance);
    var id := p.vault.ecdsa;
    var cached := env.passwords.Get(id);
    var next := CheckConflict(codec, task.request, p, env.Lookup(id), cached);
    var task1 := task.(phase := next);
    assert Segment(codec, env, task, Quiet(now)) == (env, task1);
    assert Segments(codec, env, task, 6, now) == Segments(codec, env, task1, 5, now);
    if id !in env.vaults {
      AbsentOutcome(codec, task.request, p, cached);
      CheckedEnds(codec, env, task1, p, 5, now);
    } else {
      var r := env.vaults[id];
      ConflictOutcome(codec, task.request, p, r, cached);
      if next.Prompting? {
        ConflictLocks(codec, task.request, p, r, cached);
        PromptingEnds(codec, env, task1, now);
      } else {
        CheckedEnds(codec, env, task1, p, 5, now);
      }
    }
  }

  lemma ConflictLocks(codec: Codec, request: Request, prepared: Prepared, r: StoredVault, cached: Option<string>)
    requires CheckConflict(codec, request, prepared, Some(r), cached).Prompting?
    ensures Locked(codec, r, CheckConflict(codec, request, prepared, Some(r), cached).tried)
  {
    TriesEach(codec, r.content, Candidates(cached, request.password));
    AfterDecodeEndsOrSaves(codec, request, prepared, r, Err(IncompatibleVault));
    AfterDecodeEndsOrSaves(codec, request, prepared, r, Err(ExistingVaultPasswordRequired));
  }

  /** From its start on. */
  lemma StartedEnds(codec: Codec, w: World, instance: nat, request: Request, now: int)
    requires instance in w.caches
    requires DecodesWellFormed(codec) && TotalPreorder(codec.keyOrder) && OrderIsAntisymmetric(codec.keyOrder)
    ensures var prepared := PrepareImport(codec, request.text, request.password, request.salt);
            var env := EnvOf(w, instance);
            var (env', task') := Segments(codec, env, NewTask(request), 7, now);
            && (task'.phase.Succeeded? <==>
                  && prepared.Ok? && request.canCompareAndSet
                  && Admitted(codec, w, instance, request, prepared.value)
                  && !CannotRemember(env, request, prepared.value))
            && (task'.phase.Succeeded? ==> IsImported(env, env', request, prepared.value, task'.notified, now))
            && (prepared.Err? ==> task'.phase == Failed(prepared.error) && env' == env)
  {
    var prepared := PrepareImport(codec, request.text, request.password, request.salt);
    var env, task := EnvOf(w, instance), NewTask(request);
    var task1 := task.(phase := if prepared.Ok? then Reading(prepared.value) else Failed(prepared.error));
    assert Segment(codec, env, task, Quiet(now)) == (env, task1);
    assert Segments(codec, env, task, 7, now) == Segments(codec, env, task1, 6, now);
    if prepared.Ok? {
      ReadingEnds(codec, w, instance, task1, now);
    } else {
      EndedStays(codec, env, task1, 6, now);
    }
  }

  /**
   * An import that nothing comes between, and whose user has no further password, succeeds exactly if the backup
   * can be read, the adapter can protect the write, the stored record admits it, and the cache can still be
   * written. Then the record holds the new content under the next revision, the vault is active, an upgrade was
   * announced, and the cache describes the record.
   */
  lemma UndisturbedImport(codec: Codec, w: World, k: nat, instance: nat, request: Request, now: int)
    requires k !in w.jobs && instance in w.caches
    requires DecodesWellFormed(codec) && TotalPreorder(codec.keyOrder) && OrderIsAntisymmetric(codec.keyOrder)
    ensures var prepared := PrepareImport(codec, request.text, request.password, request.salt);
            var end := Run(codec, w, [Begin(k, instance, request)] + Advances(k, 7, now));
            && k in end.jobs && instance in end.caches
            && (end.jobs[k].task.phase.Succeeded? <==>
                  && prepared.Ok? && request.canCompareAndSet
                  && Admitted(codec, w, instance, request, prepared.value)
                  && !CannotRemember(EnvOf(w, instance), request, prepared.value))
            && (end.jobs[k].task.phase.Succeeded? ==>
                  IsImported(EnvOf(w, instance), EnvOf(end, instance), request, prepared.value,
                             end.jobs[k].task.notified, now))
            && (prepared.Err? ==> end.jobs[k].task.phase == Failed(prepared.error) && end.vaults == w.vaults)
  {
    var prepared := PrepareImport(codec, request.text, request.password, request.salt);
    RunUnfolds(codec, w, Begin(k, instance, request), Advances(k, 7, now));
    var w0 := Step(codec, w, Begin(k, instance, request));
    AdvancesAreSegments(codec, w0, k, 7, now);
    assert w0.jobs[k] == Job(instance, NewTask(request)) && EnvOf(w0, instance) == EnvOf(w, instance);
    StartedEnds(codec, w, instance, request, now);
  }
}
