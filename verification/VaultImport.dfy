/**
 * `importVaultWithResult` of VaultManager.ts as a sequence of uninterrupted segments, one for each
 * stretch of code between two awaits, together with the revision-checked `save` of VaultBase.ts
 * that it commits through. Every outcome of the outside world is an input of the segment.
 */
module VaultImport {
  import opened Wrappers
  import opened Octets
  import opened VaultShare

  /** `VLT\x02`, the mark of a PBKDF2 backup. */
  const BLOB_MAGIC: Bytes := [0x56, 0x4c, 0x54, 0x02]
  const PBKDF2_HEADER_LEN := 32
  const GCM_AUTH_TAG_BYTES := 16
  const MIN_LEGACY_ENCRYPTED_VAULT_LEN := 28

  const MAX_SAFE_INTEGER := 0x1f_ffff_ffff_ffff

  // ----- backups -----

  datatype Container = Container(isEncrypted: bool, vault: Bytes)

  /** Protobuf decoding followed by `fromCommVault`. */
  datatype Decoding = NotAMessage | Incomplete | Decoded(vault: CoreVault)

  /** The codecs and the cryptography, left uninterpreted. */
  datatype Codec = Codec(
    parse: string -> Option<Container>,
    serialize: Container -> string,
    decode: Bytes -> Decoding,
    open: (string, Bytes) -> Option<Bytes>,
    seal: (string, Bytes, Bytes) -> Bytes,
    keyOrder: KeyOrder)

  predicate IsPbkdf2(blob: Bytes) {
    |blob| >= |BLOB_MAGIC| && blob[..|BLOB_MAGIC|] == BLOB_MAGIC
  }

  function MinimumLength(blob: Bytes): nat {
    if IsPbkdf2(blob) then PBKDF2_HEADER_LEN + GCM_AUTH_TAG_BYTES else MIN_LEGACY_ENCRYPTED_VAULT_LEN
  }

  /** What is assumed of the codecs: containers and ciphertexts round-trip, and sealing gives a PBKDF2 blob. */
  ghost predicate Lawful(codec: Codec) {
    && (forall c :: codec.parse(codec.serialize(c)) == Some(c))
    && (forall p, salt, x :: codec.open(p, codec.seal(p, salt, x)) == Some(x))
    && (forall p, salt, x :: IsPbkdf2(codec.seal(p, salt, x))
                             && |codec.seal(p, salt, x)| >= PBKDF2_HEADER_LEN + GCM_AUTH_TAG_BYTES)
  }

  /**
   * Whatever passwords open the backup give one plaintext. The cipher does not commit to its key, so this is
   * a property of the backup, which only one made for two passwords lacks.
   */
  ghost predicate OnePlaintext(codec: Codec, text: string) {
    match codec.parse(text)
    case None => true
    case Some(container) =>
      container.isEncrypted ==>
        forall p, q :: codec.open(p, container.vault).Some? && codec.open(q, container.vault).Some? ==>
                         codec.open(p, container.vault) == codec.open(q, container.vault)
  }

  /** A JavaScript string that is neither undefined nor empty. */
  predicate Truthy(s: Option<string>) {
    s.Some? && s.value != ""
  }

  /** `decodeVaultPayload`; None stands for a throw. */
  function DecodePayload(codec: Codec, text: string, password: Option<string>): Option<CoreVault> {
    match codec.parse(text)
    case None => None
    case Some(container) =>
      var plain := if !container.isEncrypted then Some(container.vault)
                   else if Truthy(password) then codec.open(password.value, container.vault)
                   else None;
      if plain.None? then None
      else match codec.decode(plain.value)
        case Decoded(v) => Some(v)
        case _ => None
  }

  datatype Prepared = Prepared(vault: CoreVault, isEncrypted: bool, content: string, migrated: bool)

  /** The decoding shared by both branches of `prepareVaultImport`. */
  function DecodeImport(codec: Codec, plain: Bytes): Result<CoreVault, ImportError> {
    match codec.decode(plain)
    case NotAMessage => Err(UnsupportedFormat)
    case Incomplete => Err(CorruptedData)
    case Decoded(v) => Ok(v)
  }

  /** The checks on an encrypted payload, and its decryption. */
  function DecryptImport(codec: Codec, blob: Bytes, password: Option<string>): Result<Bytes, ImportError> {
    if !Truthy(password) then Err(PasswordRequired)
    else if blob == [] || |blob| < MinimumLength(blob) then Err(CorruptedData)
    else match codec.open(password.value, blob)
      case None => Err(InvalidPassword)
      case Some(plain) => Ok(plain)
  }

  /** What `prepareVaultImport` returns or throws for the (trimmed) backup text. */
  function PrepareImport(codec: Codec, text: string, password: Option<string>, salt: Bytes)
    : Result<Prepared, ImportError>
  {
    match codec.parse(text)
    case None => Err(InvalidFileFormat)
    case Some(container) =>
      if !container.isEncrypted then
        match DecodeImport(codec, container.vault)
        case Err(e) => Err(e)
        case Ok(v) => Ok(Prepared(v, false, text, false))
      else
        match DecryptImport(codec, container.vault, password)
        case Err(e) => Err(e)
        case Ok(plain) =>
          match DecodeImport(codec, plain)
          case Err(e) => Err(e)
          case Ok(v) =>
            if IsPbkdf2(container.vault) then Ok(Prepared(v, true, text, false))
            else
              var sealed := codec.seal(password.value, salt, plain);
              Ok(Prepared(v, true, codec.serialize(container.(vault := sealed)), true))
  }

  // ----- shared state -----

  /** A persisted VaultData; the fields an import decides, and one that ordinary edits change. */
  datatype StoredVault = StoredVault(
    content: string, isEncrypted: bool, revision: Option<int>, name: string, lastModified: int)

  /** Records written before revisions existed count as revision 0. */
  function Revision(r: StoredVault): int {
    if r.revision.Some? then r.revision.value else 0
  }

  /** False where `getVaultRevision` throws. */
  predicate RevisionIsValid(r: StoredVault) {
    0 <= Revision(r) <= MAX_SAFE_INTEGER
  }

  /** The password cache of one SDK instance. */
  datatype Passwords = Passwords(entries: map<string, string>, enabled: bool, destroyed: bool) {
    function Get(id: string): Option<string> {
      if !destroyed && id in entries then Some(entries[id]) else None
    }

    /** `set` when it does not throw; with a time to live of zero it stores nothing. */
    function Set(id: string, password: string): Passwords {
      if enabled then this.(entries := entries[id := password]) else this
    }

    function Delete(id: string): Passwords {
      this.(entries := entries - {id})
    }
  }

  /** What a segment can touch: the shared storage and the cache of its own instance. */
  datatype Env = Env(vaults: map<string, StoredVault>, active: Option<string>, passwords: Passwords) {
    function Lookup(id: string): Option<StoredVault> {
      if id in vaults then Some(vaults[id]) else None
    }
  }

  // ----- one import -----

  datatype Resolution = Reject | Replace | ReplaceUnvalidated

  datatype Request = Request(
    text: string, password: Option<string>, resolution: Resolution, salt: Bytes,
    canPrompt: bool, canCompareAndSet: bool)

  /** Where an import stands: the await it is suspended at, or its end. */
  datatype Phase =
    | Preparing
    | Reading(prepared: Prepared)
    | Prompting(prepared: Prepared, existing: StoredVault, tried: seq<string>)
    | Saving(prepared: Prepared, baseline: Option<StoredVault>)
    | Comparing(prepared: Prepared, baseline: Option<StoredVault>, current: Option<StoredVault>)
    | Durable(prepared: Prepared, replaced: Option<StoredVault>)
    | Activating(prepared: Prepared)
    | Succeeded(prepared: Prepared)
    | Failed(error: ImportError)

  /** The durable write of an import: what it was checked against, what it replaced, what it wrote. */
  datatype Commit = Commit(
    prepared: Prepared, baseline: Option<StoredVault>, replaced: Option<StoredVault>, written: StoredVault)

  /** An import. `saveThrew`: its write took effect, and the call threw all the same. */
  datatype Task = Task(
    request: Request, phase: Phase, commit: Option<Commit>,
    notified: bool, saveThrew: bool, cacheThrew: bool, handlerThrew: bool)

  /** What the outside world decides during one segment; a `late` fault of a write comes after it took effect. */
  datatype Input = Input(fault: bool, late: bool, answer: Option<string>, handlerThrows: bool, now: int)

  function NewTask(request: Request): Task {
    Task(request, Preparing, None, false, false, false, false)
  }

  function VaultId(prepared: Prepared): string {
    prepared.vault.ecdsa
  }

  /** The record `vault.save()` builds for an import that replaces `current`. */
  function NewRecord(prepared: Prepared, current: Option<StoredVault>, now: int): StoredVault {
    var next := if current.Some? then Revision(current.value) + 1 else 1;
    StoredVault(prepared.content, prepared.isEncrypted, Some(next), prepared.vault.name, now)
  }

  /** The cached password and the imported one, without blanks and duplicates. */
  function Candidates(cached: Option<string>, imported: Option<string>): seq<string> {
    (if Truthy(cached) then [cached.value] else [])
    + (if Truthy(imported) && imported != cached then [imported.value] else [])
  }

  function TryPasswords(codec: Codec, text: string, passwords: seq<string>): Option<CoreVault> {
    if passwords == [] then None
    else
      var first := DecodePayload(codec, text, Some(passwords[0]));
      if first.Some? then first else TryPasswords(codec, text, passwords[1..])
  }

  /** Building the vault instance with its baseline, up to the call of `save`. */
  function StartSave(request: Request, prepared: Prepared, baseline: Option<StoredVault>): Phase {
    if baseline.Some? && !RevisionIsValid(baseline.value) then Failed(CorruptedData)
    else if !request.canCompareAndSet then Failed(PersistenceFailed)
    else Saving(prepared, baseline)
  }

  /** The end of `validateImportConflict`, once the stored vault was decoded or could not be. */
  function AfterDecode(codec: Codec, request: Request, prepared: Prepared, existing: StoredVault,
                       decoded: Result<CoreVault, ImportError>): Phase
  {
    match decoded
    case Err(e) =>
      if request.resolution == ReplaceUnvalidated then StartSave(request, prepared, Some(existing)) else Failed(e)
    case Ok(v) =>
      match ValidateReplacement(codec.keyOrder, v, prepared.vault)
      case Some(e) => Failed(e)
      case None =>
        if request.resolution == Reject then Failed(DuplicateVault)
        else StartSave(request, prepared, Some(existing))
  }

  /** `validateImportConflict` up to the password prompt, if it gets there. */
  function CheckConflict(codec: Codec, request: Request, prepared: Prepared,
                         existing: Option<StoredVault>, cached: Option<string>): Phase
  {
    if existing.None? then StartSave(request, prepared, None)
    else
      var r := existing.value;
      match codec.parse(r.content)
      case None => AfterDecode(codec, request, prepared, r, Err(IncompatibleVault))
      case Some(container) =>
        if !container.isEncrypted then
          match DecodePayload(codec, r.content, None)
          case None => AfterDecode(codec, request, prepared, r, Err(IncompatibleVault))
          case Some(v) => AfterDecode(codec, request, prepared, r, Ok(v))
        else
          var candidates := Candidates(cached, request.password);
          match TryPasswords(codec, r.content, candidates)
          case Some(v) => AfterDecode(codec, request, prepared, r, Ok(v))
          case None =>
            if request.canPrompt then Prompting(prepared, r, candidates)
            else AfterDecode(codec, request, prepared, r, Err(ExistingVaultPasswordRequired))
  }

  /** The rest of `decodeStoredVault` once the user answered, or the prompt threw. */
  function AnswerPrompt(codec: Codec, request: Request, prepared: Prepared, existing: StoredVault,
                        tried: seq<string>, answer: Option<string>): Phase
  {
    var decoded := if Truthy(answer) && answer.value !in tried then DecodePayload(codec, existing.content, answer)
                   else None;
    AfterDecode(codec, request, prepared, existing,
                if decoded.Some? then Ok(decoded.value) else Err(ExistingVaultPasswordRequired))
  }

  /** `saveUnlocked` between its read and its compare-and-set: only revisions are compared. */
  function CheckRevision(prepared: Prepared, baseline: Option<StoredVault>, current: Option<StoredVault>): Phase {
    if current.Some? && !RevisionIsValid(current.value) then Failed(PersistenceFailed)
    else if baseline.Some? != current.Some? then Failed(PersistenceFailed)
    else if baseline.Some? && Revision(baseline.value) != Revision(current.value) then Failed(PersistenceFailed)
    else Comparing(prepared, baseline, current)
  }

  /** `compareAndSet`, and what `saveUnlocked` does with a record that was written. */
  function CompareAndSet(env: Env, task: Task, input: Input): (Env, Task)
    requires task.phase.Comparing?
  {
    var Comparing(prepared, baseline, current) := task.phase;
    var id := VaultId(prepared);
    if env.Lookup(id) != current || (input.fault && !input.late) then (env, task.(phase := Failed(PersistenceFailed)))
    else
      var written := NewRecord(prepared, current, input.now);
      var task' := task.(commit := Some(Commit(prepared, baseline, current, written)));
      (env.(vaults := env.vaults[id := written]),
       if input.fault then task'.(saveThrew := true, phase := Failed(PersistenceFailed))
       else if RevisionIsValid(written) then task'.(phase := Durable(prepared, baseline))
       else task'.(phase := Failed(PersistenceFailed)))
  }

  /** The password-cache update throws on a cache that `dispose` destroyed. */
  predicate CacheThrows(passwords: Passwords, request: Request, prepared: Prepared) {
    Truthy(request.password) && prepared.isEncrypted && passwords.destroyed
  }

  function UpdateCache(passwords: Passwords, request: Request, prepared: Prepared,
                       replaced: Option<StoredVault>): Passwords
  {
    if Truthy(request.password) && prepared.isEncrypted then passwords.Set(VaultId(prepared), request.password.value)
    else if !prepared.isEncrypted && replaced.Some? && replaced.value.isEncrypted then
      passwords.Delete(VaultId(prepared))
    else passwords
  }

  /** From the durable save to the pointer write: the password cache, then the migration notice. */
  function AfterSave(env: Env, task: Task, input: Input): (Env, Task)
    requires task.phase.Durable?
  {
    var Durable(prepared, replaced) := task.phase;
    if CacheThrows(env.passwords, task.request, prepared) then
      (env, task.(cacheThrew := true, phase := Failed(CorruptedData)))
    else
      var env' := env.(passwords := UpdateCache(env.passwords, task.request, prepared, replaced));
      if !prepared.migrated then (env', task.(phase := Activating(prepared)))
      else if input.handlerThrows then
        (env', task.(notified := true, handlerThrew := true, phase := Failed(CorruptedData)))
      else (env', task.(notified := true, phase := Activating(prepared)))
  }

  /** One segment of an import: from where it is suspended to the next await, or to its end. */
  function Segment(codec: Codec, env: Env, task: Task, input: Input): (Env, Task) {
    match task.phase
    case Preparing =>
      var next := match PrepareImport(codec, task.request.text, task.request.password, task.request.salt)
                  case Err(e) => Failed(e)
                  case Ok(prepared) => Reading(prepared);
      (env, task.(phase := next))
    case Reading(prepared) =>
      var id := VaultId(prepared);
      (env, task.(phase := if input.fault then Failed(PersistenceFailed)
                           else CheckConflict(codec, task.request, prepared, env.Lookup(id), env.passwords.Get(id))))
    case Prompting(prepared, existing, tried) =>
      (env, task.(phase := AnswerPrompt(codec, task.request, prepared, existing, tried, input.answer)))
    case Saving(prepared, baseline) =>
      (env, task.(phase := if input.fault then Failed(PersistenceFailed)
                           else CheckRevision(prepared, baseline, env.Lookup(VaultId(prepared)))))
    case Comparing(_, _, _) => CompareAndSet(env, task, input)
    case Durable(_, _) => AfterSave(env, task, input)
    case Activating(prepared) =>
      if input.fault then
        (if input.late then env.(active := Some(VaultId(prepared))) else env, task.(phase := Failed(PersistenceFailed)))
      else (env.(active := Some(VaultId(prepared))), task.(phase := Succeeded(prepared)))
    case Succeeded(_) => (env, task)
    case Failed(_) => (env, task)
  }

  // ----- many imports over one storage -----

  datatype Job = Job(instance: nat, task: Task)

  datatype World = World(
    vaults: map<string, StoredVault>, active: Option<string>,
    caches: map<nat, Passwords>, jobs: map<nat, Job>)

  datatype Event =
    | Begin(job: nat, instance: nat, request: Request)
    | Advance(job: nat, input: Input)
    | EditMetadata(id: string, name: string, now: int)
    | Remember(instance: nat, id: string, password: string)
    | Forget(instance: nat, id: string)
    | Dispose(instance: nat)
    | SwitchActive(target: Option<string>)
    | Delete(id: string)

  function EnvOf(w: World, instance: nat): Env
    requires instance in w.caches
  {
    Env(w.vaults, w.active, w.caches[instance])
  }

  predicate CanAdvance(w: World, job: nat) {
    job in w.jobs && w.jobs[job].instance in w.caches
  }

  function AdvanceJob(codec: Codec, w: World, job: nat, input: Input): World
    requires CanAdvance(w, job)
  {
    var Job(instance, task) := w.jobs[job];
    var (env, task') := Segment(codec, EnvOf(w, instance), task, input);
    World(env.vaults, env.active, w.caches[instance := env.passwords], w.jobs[job := Job(instance, task')])
  }

  /** A successful ordinary save (rename, preferences) of the current record. */
  function EditedRecord(r: StoredVault, name: string, now: int): StoredVault {
    r.(name := name, lastModified := now, revision := Some(Revision(r) + 1))
  }

  /** One atomic step of the whole system; an event that is not enabled changes nothing. */
  function Step(codec: Codec, w: World, event: Event): World {
    match event
    case Begin(job, instance, request) =>
      if job in w.jobs || instance !in w.caches then w
      else w.(jobs := w.jobs[job := Job(instance, NewTask(request))])
    case Advance(job, input) => if CanAdvance(w, job) then AdvanceJob(codec, w, job, input) else w
    case EditMetadata(id, name, now) =>
      if id in w.vaults && RevisionIsValid(w.vaults[id])
      then w.(vaults := w.vaults[id := EditedRecord(w.vaults[id], name, now)]) else w
    case Remember(instance, id, password) =>
      if instance in w.caches && !w.caches[instance].destroyed
      then w.(caches := w.caches[instance := w.caches[instance].Set(id, password)]) else w
    case Forget(instance, id) =>
      if instance in w.caches then w.(caches := w.caches[instance := w.caches[instance].Delete(id)]) else w
    case Dispose(instance) =>
      if instance in w.caches
      then w.(caches := w.caches[instance := w.caches[instance].(entries := map[], destroyed := true)]) else w
    case SwitchActive(target) => w.(active := target)
    case Delete(id) => w.(vaults := w.vaults - {id})
  }

  /** The state after a run, event by event. */
  function Run(codec: Codec, w: World, events: seq<Event>): World
    decreases |events|
  {
    if events == [] then w else Run(codec, Step(codec, w, events[0]), events[1..])
  }

  /** Storage with its instances, before any import. */
  predicate Fresh(w: World) {
    w.jobs == map[]
  }

  predicate DeletesNothing(events: seq<Event>) {
    forall e :: e in events ==> !e.Delete?
  }

  /** Every import of the run uses one of the given conflict resolutions. */
  predicate OnlyResolutions(events: seq<Event>, allowed: set<Resolution>) {
    forall e :: e in events && e.Begin? ==> e.request.resolution in allowed
  }
}
