/** What every interleaving of imports over one storage keeps. */
module VaultImportSafety {
  import opened Wrappers
  import opened Octets
  import opened StableSort
  import opened VaultShare
  import opened VaultImport

  // ----- what a stored backup holds -----

  /** Some password (or none, for a plain backup) gives this share. */
  ghost predicate Decodes(codec: Codec, text: string, v: CoreVault) {
    exists password :: DecodePayload(codec, text, password) == Some(v)
  }

  /** Both texts are the same, or hold shares that `validateReplacement` accepts for each other. */
  ghost predicate SameStoredShare(codec: Codec, before: string, after: string) {
    before == after
    || exists v, w :: Decodes(codec, before, v) && Decodes(codec, after, w) && Accepts(codec.keyOrder, v, w)
  }

  /** Passwords give different shares only if they give different plaintexts. */
  lemma DecodesIsUnique(codec: Codec, text: string, v: CoreVault, w: CoreVault)
    requires OnePlaintext(codec, text)
    requires Decodes(codec, text, v) && Decodes(codec, text, w)
    ensures v == w
  {
    var p :| DecodePayload(codec, text, p) == Some(v);
    var q :| DecodePayload(codec, text, q) == Some(w);
    var container := codec.parse(text).value;
    if container.isEncrypted {
      assert codec.open(p.value, container.vault) == codec.open(q.value, container.vault);
    }
  }

  lemma SameStoredShareIsTransitive(codec: Codec, a: string, b: string, c: string)
    requires OnePlaintext(codec, b)
    requires SameStoredShare(codec, a, b) && SameStoredShare(codec, b, c)
    ensures SameStoredShare(codec, a, c)
  {
    if a != b && b != c {
      var v, w :| Decodes(codec, a, v) && Decodes(codec, b, w) && Accepts(codec.keyOrder, v, w);
      var w', x :| Decodes(codec, b, w') && Decodes(codec, c, x) && Accepts(codec.keyOrder, w', x);
      DecodesIsUnique(codec, b, w, w');
      AcceptanceIsEquivalence(codec.keyOrder, v, w, x);
    }
  }

  /** `fromCommVault` builds its records key by key. */
  ghost predicate DecodesWellFormed(codec: Codec) {
    forall plain :: codec.decode(plain).Decoded? ==> WellFormedVault(codec.decode(plain).vault)
  }

  lemma DecodedIsWellFormed(codec: Codec, text: string, v: CoreVault)
    requires DecodesWellFormed(codec) && Decodes(codec, text, v)
    ensures WellFormedVault(v)
  {
  }

  lemma AcceptedMeansSameShare(codec: Codec, before: string, v: CoreVault, after: string, w: CoreVault)
    requires DecodesWellFormed(codec)
    requires TotalPreorder(codec.keyOrder) && OrderIsAntisymmetric(codec.keyOrder)
    requires Decodes(codec, before, v) && Decodes(codec, after, w) && Accepts(codec.keyOrder, v, w)
    ensures SameShare(v, w)
  {
    DecodedIsWellFormed(codec, before, v);
    DecodedIsWellFormed(codec, after, w);
    ValidateReplacementVerdict(codec.keyOrder, v, w);
  }

  /** With a key order that separates keys, an equivalent share is the same share field by field. */
  lemma SameStoredShareMeansSameShare(codec: Codec, before: string, after: string, v: CoreVault)
    requires OnePlaintext(codec, before) && DecodesWellFormed(codec)
    requires TotalPreorder(codec.keyOrder) && OrderIsAntisymmetric(codec.keyOrder)
    requires SameStoredShare(codec, before, after) && Decodes(codec, before, v)
    ensures exists w :: Decodes(codec, after, w) && SameShare(v, w)
    ensures OnePlaintext(codec, after) ==> forall w :: Decodes(codec, after, w) ==> SameShare(v, w)
  {
    var w := v;
    if before != after {
      var v', w' :| Decodes(codec, before, v') && Decodes(codec, after, w') && Accepts(codec.keyOrder, v', w');
      DecodesIsUnique(codec, before, v, v');
      AcceptedMeansSameShare(codec, before, v, after, w');
      w := w';
    }
    assert Decodes(codec, after, w) && SameShare(v, w);
    if OnePlaintext(codec, after) {
      forall x | Decodes(codec, after, x) ensures SameShare(v, x) {
        DecodesIsUnique(codec, after, w, x);
      }
    }
  }

  /** What is stored for an import decodes, with the password it was imported with, to the imported vault. */
  lemma PreparedContentDecodes(codec: Codec, text: string, password: Option<string>, salt: Bytes)
    requires Lawful(codec)
    ensures var r := PrepareImport(codec, text, password, salt);
            r.Ok? ==> DecodePayload(codec, r.value.content, password) == Some(r.value.vault)
  {
    var r := PrepareImport(codec, text, password, salt);
    if r.Ok? && r.value.migrated {
      var container := codec.parse(text).value;
      var plain := codec.open(password.value, container.vault).value;
      var upgraded := container.(vault := codec.seal(password.value, salt, plain));
      assert codec.parse(codec.serialize(upgraded)) == Some(upgraded);
    }
  }

  /**
   * A backup can be imported exactly if `decodeVaultPayload` can read it and its ciphertext is not too
   * short; the vault is then the one read, and an upgrade takes place exactly for an old ciphertext.
   */
  lemma PrepareAgreesWithDecode(codec: Codec, text: string, password: Option<string>, salt: Bytes)
    ensures var r, container := PrepareImport(codec, text, password, salt), codec.parse(text);
            var decoded := DecodePayload(codec, text, password);
            && (r.Ok? <==> decoded.Some? && (container.value.isEncrypted ==>
                             |container.value.vault| >= ShortestOf(container.value.vault)))
            && (r.Ok? ==> r.value.vault == decoded.value && r.value.isEncrypted == container.value.isEncrypted)
            && (r.Ok? ==> (r.value.migrated <==> r.value.isEncrypted && !HasNewMark(container.value.vault)))
            && (r.Ok? && !r.value.migrated ==> r.value.content == text)
            && (r == Err(InvalidPassword) <==>
                  && container.Some? && container.value.isEncrypted && Truthy(password)
                  && |container.value.vault| >= ShortestOf(container.value.vault)
                  && codec.open(password.value, container.value.vault) == None)
            && (r == Err(PasswordRequired) <==> container.Some? && container.value.isEncrypted && !Truthy(password))
  {
  }

  /** `VLT` and the number 2. */
  predicate HasNewMark(blob: Bytes) {
    |blob| >= 4 && blob[0] == 0x56 && blob[1] == 0x4c && blob[2] == 0x54 && blob[3] == 0x02
  }

  /** The header of a new backup and its tag take 48 bytes, the nonce and tag of an old one 28. */
  function ShortestOf(blob: Bytes): nat {
    if HasNewMark(blob) then 48 else 28
  }

  /** The bytes that are decoded, once the checks on a ciphertext have passed. */
  function PlainBytes(codec: Codec, container: Container, password: Option<string>): Option<Bytes> {
    if !container.isEncrypted then Some(container.vault)
    else if Truthy(password) && |container.vault| >= ShortestOf(container.vault) then
      codec.open(password.value, container.vault)
    else None
  }

  /** What is wrong with a text, a ciphertext or its contents that cannot be read. */
  lemma UnreadableBackups(codec: Codec, text: string, password: Option<string>, salt: Bytes)
    ensures var r, container := PrepareImport(codec, text, password, salt), codec.parse(text);
            var plain := if container.Some? then PlainBytes(codec, container.value, password) else None;
            && (r == Err(InvalidFileFormat) <==> container.None?)
            && (r == Err(UnsupportedFormat) <==> plain.Some? && codec.decode(plain.value).NotAMessage?)
            && (r == Err(CorruptedData) <==>
                  || (plain.Some? && codec.decode(plain.value).Incomplete?)
                  || (&& container.Some? && container.value.isEncrypted && Truthy(password)
                      && |container.value.vault| < ShortestOf(container.value.vault)))
  {
  }

  /** Importing an upgraded backup again gives the same vault and upgrades nothing. */
  lemma MigrationHappensOnce(codec: Codec, text: string, password: Option<string>, salt: Bytes, salt': Bytes)
    requires Lawful(codec)
    requires PrepareImport(codec, text, password, salt).Ok?
    ensures var first := PrepareImport(codec, text, password, salt).value;
            first.migrated ==> PrepareImport(codec, first.content, password, salt') == Ok(first.(migrated := false))
  {
    var first := PrepareImport(codec, text, password, salt).value;
    if first.migrated {
      var container := codec.parse(text).value;
      var plain := codec.open(password.value, container.vault).value;
      var sealed := codec.seal(password.value, salt, plain);
      assert codec.parse(first.content) == Some(container.(vault := sealed));
      assert codec.open(password.value, sealed) == Some(plain);
    }
  }

  // ----- one import, whatever the others do -----

  /** A baseline was read, and the share in it was compared with the imported one unless that was waived. */
  ghost predicate Checked(codec: Codec, request: Request, prepared: Prepared, baseline: Option<StoredVault>) {
    baseline.Some? ==>
      && RevisionIsValid(baseline.value)
      && request.resolution != Reject
      && (request.resolution == Replace ==>
            exists v :: Decodes(codec, baseline.value.content, v) && Accepts(codec.keyOrder, v, prepared.vault))
  }

  ghost predicate IsPrepared(codec: Codec, request: Request, prepared: Prepared) {
    PrepareImport(codec, request.text, request.password, request.salt) == Ok(prepared)
  }

  /** The record is encrypted, and none of these passwords opens it. */
  ghost predicate Locked(codec: Codec, existing: StoredVault, tried: seq<string>) {
    && codec.parse(existing.content).Some? && codec.parse(existing.content).value.isEncrypted
    && forall i :: 0 <= i < |tried| ==> DecodePayload(codec, existing.content, Some(tried[i])) == None
  }

  /** The import in `phase` holds a properly prepared backup, and a checked baseline from `save` on. */
  ghost predicate PhaseOk(codec: Codec, request: Request, phase: Phase) {
    match phase
    case Reading(p) => IsPrepared(codec, request, p)
    case Prompting(p, r, tried) => IsPrepared(codec, request, p) && Locked(codec, r, tried)
    case Saving(p, b) => IsPrepared(codec, request, p) && Checked(codec, request, p, b)
    case Comparing(p, b, c) =>
      && IsPrepared(codec, request, p) && Checked(codec, request, p, b)
      && (b.None? <==> c.None?)
      && (b.Some? ==> RevisionIsValid(c.value) && Revision(b.value) == Revision(c.value))
    case Durable(p, _) => IsPrepared(codec, request, p)
    case Activating(p) => IsPrepared(codec, request, p)
    case Succeeded(p) => IsPrepared(codec, request, p)
    case Preparing => true
    case Failed(_) => true
  }

  ghost predicate CommitOk(codec: Codec, request: Request, c: Commit) {
    && IsPrepared(codec, request, c.prepared)
    && Checked(codec, request, c.prepared, c.baseline)
    && (c.baseline.None? <==> c.replaced.None?)
    && (c.baseline.Some? ==> Revision(c.baseline.value) == Revision(c.replaced.value))
    && c.written == NewRecord(c.prepared, c.replaced, c.written.lastModified)
  }

  predicate Settled(phase: Phase) {
    phase.Succeeded? || phase.Failed?
  }

  /** None of the calls behind the checks has thrown. */
  predicate NothingThrew(task: Task) {
    !task.saveThrew && !task.cacheThrew && !task.handlerThrew
  }

  /** What the end of an import, and its way there, say about its durable write. */
  ghost predicate OutcomeOk(task: Task) {
    match task.phase
    case Durable(p, b) =>
      && task.commit.Some? && task.commit.value.prepared == p && task.commit.value.baseline == b
      && RevisionIsValid(task.commit.value.written) && !task.notified && NothingThrew(task)
    case Activating(p) =>
      && task.commit.Some? && task.commit.value.prepared == p
      && (task.notified <==> p.migrated)
      && RevisionIsValid(task.commit.value.written) && NothingThrew(task)
    case Succeeded(p) =>
      && task.commit.Some? && task.commit.value.prepared == p
      && (task.notified <==> p.migrated)
      && RevisionIsValid(task.commit.value.written) && NothingThrew(task)
    case Failed(e) =>
      if task.commit.None? then !task.notified && NothingThrew(task)
      else
        && (e == CorruptedData <==> task.cacheThrew || task.handlerThrew)
        && (e != CorruptedData ==> e == PersistenceFailed)
        && (task.notified <==>
            && task.commit.value.prepared.migrated && !task.saveThrew && !task.cacheThrew
            && RevisionIsValid(task.commit.value.written))
        && (task.cacheThrew || task.handlerThrew ==>
              RevisionIsValid(task.commit.value.written) && !task.saveThrew)
    case _ => task.commit.None? && !task.notified && NothingThrew(task)
  }

  ghost predicate TaskOk(codec: Codec, task: Task) {
    && PhaseOk(codec, task.request, task.phase)
    && (task.commit.Some? ==> CommitOk(codec, task.request, task.commit.value))
    && OutcomeOk(task)
  }

  lemma StartSaveIsOk(codec: Codec, request: Request, prepared: Prepared, baseline: Option<StoredVault>)
    requires IsPrepared(codec, request, prepared)
    requires baseline.Some? ==> request.resolution != Reject
    requires baseline.Some? && request.resolution == Replace ==>
               exists v :: Decodes(codec, baseline.value.content, v) && Accepts(codec.keyOrder, v, prepared.vault)
    ensures PhaseOk(codec, request, StartSave(request, prepared, baseline))
  {
  }

  lemma AfterDecodeIsOk(codec: Codec, request: Request, prepared: Prepared, existing: StoredVault,
                        decoded: Result<CoreVault, ImportError>)
    requires IsPrepared(codec, request, prepared)
    requires decoded.Ok? ==> Decodes(codec, existing.content, decoded.value)
    ensures PhaseOk(codec, request, AfterDecode(codec, request, prepared, existing, decoded))
  {
    if request.resolution != Reject && (decoded.Ok? || request.resolution == ReplaceUnvalidated) {
      if decoded.Err? || Accepts(codec.keyOrder, decoded.value, prepared.vault) {
        StartSaveIsOk(codec, request, prepared, Some(existing));
      }
    }
  }

  lemma {:induction false} TryPasswordsDecodes(codec: Codec, text: string, passwords: seq<string>)
    ensures var v := TryPasswords(codec, text, passwords);
            v.Some? ==> Decodes(codec, text, v.value)
  {
    if passwords != [] {
      var first := DecodePayload(codec, text, Some(passwords[0]));
      assert first.Some? ==> Decodes(codec, text, first.value);
      TryPasswordsDecodes(codec, text, passwords[1..]);
    }
  }

  lemma {:induction false} TriesEach(codec: Codec, text: string, passwords: seq<string>)
    ensures TryPasswords(codec, text, passwords) == None <==>
            forall i :: 0 <= i < |passwords| ==> DecodePayload(codec, text, Some(passwords[i])) == None
    decreases |passwords|
  {
    if passwords != [] {
      TriesEach(codec, text, passwords[1..]);
      assert forall i :: 1 <= i < |passwords| ==> passwords[i] == passwords[1..][i - 1];
    }
  }

  lemma CheckConflictIsOk(codec: Codec, request: Request, prepared: Prepared, existing: Option<StoredVault>,
                          cached: Option<string>)
    requires IsPrepared(codec, request, prepared)
    ensures PhaseOk(codec, request, CheckConflict(codec, request, prepared, existing, cached))
  {
    if existing.None? {
      StartSaveIsOk(codec, request, prepared, None);
    } else {
      var text := existing.value.content;
      AfterDecodeIsOk(codec, request, prepared, existing.value, Err(IncompatibleVault));
      AfterDecodeIsOk(codec, request, prepared, existing.value, Err(ExistingVaultPasswordRequired));
      var plain := DecodePayload(codec, text, None);
      if plain.Some? {
        assert Decodes(codec, text, plain.value);
        AfterDecodeIsOk(codec, request, prepared, existing.value, Ok(plain.value));
      }
      var tried := TryPasswords(codec, text, Candidates(cached, request.password));
      TriesEach(codec, text, Candidates(cached, request.password));
      if tried.Some? {
        TryPasswordsDecodes(codec, text, Candidates(cached, request.password));
        AfterDecodeIsOk(codec, request, prepared, existing.value, Ok(tried.value));
      }
    }
  }

  /** The user is asked exactly when neither the cached nor the imported password reads an encrypted record. */
  lemma PromptsExactlyWhen(codec: Codec, request: Request, prepared: Prepared, existing: StoredVault,
                           cached: Option<string>)
    requires codec.parse(existing.content).Some? && codec.parse(existing.content).value.isEncrypted
    ensures CheckConflict(codec, request, prepared, Some(existing), cached).Prompting? <==>
            && request.canPrompt
            && DecodePayload(codec, existing.content, cached) == None
            && DecodePayload(codec, existing.content, request.password) == None
  {
    var text, candidates := existing.content, Candidates(cached, request.password);
    TriesEach(codec, text, candidates);
    assert Truthy(cached) ==> candidates[0] == cached.value;
    assert Truthy(request.password) && request.password != cached ==>
        candidates[|candidates| - 1] == request.password.value;
    assert !Truthy(cached) ==> DecodePayload(codec, text, cached) == None;
    var tried := TryPasswords(codec, text, candidates);
    if tried.Some? {
      AfterDecodeEndsOrSaves(codec, request, prepared, existing, Ok(tried.value));
    } else {
      AfterDecodeEndsOrSaves(codec, request, prepared, existing, Err(ExistingVaultPasswordRequired));
    }
  }

  lemma AnswerPromptIsOk(codec: Codec, request: Request, prepared: Prepared, existing: StoredVault,
                         tried: seq<string>, answer: Option<string>)
    requires IsPrepared(codec, request, prepared)
    ensures PhaseOk(codec, request, AnswerPrompt(codec, request, prepared, existing, tried, answer))
  {
    var decoded := DecodePayload(codec, existing.content, answer);
    AfterDecodeIsOk(codec, request, prepared, existing, Err(ExistingVaultPasswordRequired));
    if decoded.Some? {
      assert Decodes(codec, existing.content, decoded.value);
      AfterDecodeIsOk(codec, request, prepared, existing, Ok(decoded.value));
    }
  }

  lemma AfterDecodeEndsOrSaves(codec: Codec, request: Request, prepared: Prepared, existing: StoredVault,
                               decoded: Result<CoreVault, ImportError>)
    ensures var next := AfterDecode(codec, request, prepared, existing, decoded);
            next.Failed? || next == Saving(prepared, Some(existing))
  {
  }

  lemma AnswerEndsOrSaves(codec: Codec, request: Request, prepared: Prepared, existing: StoredVault,
                          tried: seq<string>, answer: Option<string>)
    ensures var next := AnswerPrompt(codec, request, prepared, existing, tried, answer);
            next.Failed? || next == Saving(prepared, Some(existing))
  {
    AfterDecodeEndsOrSaves(codec, request, prepared, existing, Err(ExistingVaultPasswordRequired));
    var decoded := DecodePayload(codec, existing.content, answer);
    if decoded.Some? {
      AfterDecodeEndsOrSaves(codec, request, prepared, existing, Ok(decoded.value));
    }
  }

  /** The conflict check keeps hold of the record that was read. */
  lemma ConflictCheckEndsOrSaves(codec: Codec, request: Request, prepared: Prepared, existing: Option<StoredVault>,
                                 cached: Option<string>)
    ensures var next := CheckConflict(codec, request, prepared, existing, cached);
            || next.Failed?
            || next == Saving(prepared, existing)
            || (next.Prompting? && next.prepared == prepared && existing == Some(next.existing))
  {
    if existing.Some? {
      var r := existing.value;
      AfterDecodeEndsOrSaves(codec, request, prepared, r, Err(IncompatibleVault));
      AfterDecodeEndsOrSaves(codec, request, prepared, r, Err(ExistingVaultPasswordRequired));
      var plain := DecodePayload(codec, r.content, None);
      if plain.Some? {
        AfterDecodeEndsOrSaves(codec, request, prepared, r, Ok(plain.value));
      }
      var tried := TryPasswords(codec, r.content, Candidates(cached, request.password));
      if tried.Some? {
        AfterDecodeEndsOrSaves(codec, request, prepared, r, Ok(tried.value));
      }
    }
  }

  lemma CompareAndSetKeepsTaskOk(codec: Codec, env: Env, task: Task, input: Input)
    requires TaskOk(codec, task) && task.phase.Comparing?
    ensures TaskOk(codec, CompareAndSet(env, task, input).1)
  {
    var task' := CompareAndSet(env, task, input).1;
    if task'.commit.Some? {
      assert CommitOk(codec, task.request, task'.commit.value);
    }
  }

  lemma AfterSaveKeepsTaskOk(codec: Codec, env: Env, task: Task, input: Input)
    requires TaskOk(codec, task) && task.phase.Durable?
    ensures TaskOk(codec, AfterSave(env, task, input).1)
  {
  }

  lemma ReadingKeepsTaskOk(codec: Codec, env: Env, task: Task, input: Input)
    requires TaskOk(codec, task) && task.phase.Reading?
    ensures TaskOk(codec, Segment(codec, env, task, input).1)
  {
    var p := task.phase.prepared;
    CheckConflictIsOk(codec, task.request, p, env.Lookup(VaultId(p)), env.passwords.Get(VaultId(p)));
    ConflictCheckEndsOrSaves(codec, task.request, p, env.Lookup(VaultId(p)), env.passwords.Get(VaultId(p)));
  }

  lemma PromptingKeepsTaskOk(codec: Codec, env: Env, task: Task, input: Input)
    requires TaskOk(codec, task) && task.phase.Prompting?
    ensures TaskOk(codec, Segment(codec, env, task, input).1)
  {
    var Prompting(p, existing, tried) := task.phase;
    AnswerPromptIsOk(codec, task.request, p, existing, tried, input.answer);
    AnswerEndsOrSaves(codec, task.request, p, existing, tried, input.answer);
  }

  /** Each segment keeps the bookkeeping of its import, in any environment. */
  lemma SegmentKeepsTaskOk(codec: Codec, env: Env, task: Task, input: Input)
    requires TaskOk(codec, task)
    ensures TaskOk(codec, Segment(codec, env, task, input).1)
    ensures Segment(codec, env, task, input).1.request == task.request
  {
    match task.phase
    case Reading(_) => ReadingKeepsTaskOk(codec, env, task, input);
    case Prompting(_, _, _) => PromptingKeepsTaskOk(codec, env, task, input);
    case Comparing(_, _, _) => CompareAndSetKeepsTaskOk(codec, env, task, input);
    case Durable(_, _) => AfterSaveKeepsTaskOk(codec, env, task, input);
    case _ =>
  }
}
