/** The theorems about whole runs of many imports over one storage. */
module VaultImportRuns {
  import opened Wrappers
  import opened StableSort
  import opened VaultShare
  import opened VaultImport
  import opened VaultImportSafety

  // ----- every run -----

  ghost predicate TasksOk(codec: Codec, w: World) {
    forall j :: j in w.jobs ==> TaskOk(codec, w.jobs[j].task)
  }

  lemma StepKeepsTasksOk(codec: Codec, w: World, event: Event)
    requires TasksOk(codec, w)
    ensures TasksOk(codec, Step(codec, w, event))
  {
    if event.Advance? && CanAdvance(w, event.job) {
      var Job(instance, task) := w.jobs[event.job];
      SegmentKeepsTaskOk(codec, EnvOf(w, instance), task, event.input);
    }
  }

  lemma {:induction false} RunKeepsTasksOk(codec: Codec, w: World, events: seq<Event>)
    requires TasksOk(codec, w)
    ensures TasksOk(codec, Run(codec, w, events))
    decreases |events|
  {
    if events != [] {
      StepKeepsTasksOk(codec, w, events[0]);
      RunKeepsTasksOk(codec, Step(codec, w, events[0]), events[1..]);
    }
  }

  /**
   * How an import can end, in every run: after the durable write only PERSISTENCE_FAILED surfaces
   * unless the cache or the notice handler threw, and the notice has fired exactly when an upgraded
   * record is durable, neither the write that made it so nor the cache threw, and the written revision
   * is a safe integer.
   */
  lemma ImportEndsConsistently(codec: Codec, w: World, events: seq<Event>, j: nat)
    requires Fresh(w) && j in Run(codec, w, events).jobs
    requires Settled(Run(codec, w, events).jobs[j].task.phase)
    ensures var task := Run(codec, w, events).jobs[j].task;
            && (task.phase.Succeeded? ==> task.commit.Some?)
            && (task.phase.Failed? && task.commit.Some? ==>
                  task.phase.error ==
                    if task.cacheThrew || task.handlerThrew then CorruptedData else PersistenceFailed)
            && (task.notified <==>
                && task.commit.Some? && task.commit.value.prepared.migrated
                && !task.saveThrew && !task.cacheThrew && RevisionIsValid(task.commit.value.written))
  {
    RunKeepsTasksOk(codec, w, events);
  }

  /** A segment leaves all records alone, or makes the one write of its import: the complete new record. */
  lemma SegmentWritesWholeRecordOnce(codec: Codec, env: Env, task: Task, input: Input)
    requires TaskOk(codec, task)
    ensures var (env', task') := Segment(codec, env, task, input);
            || (env'.vaults == env.vaults && task'.commit == task.commit)
            || (&& task.commit.None? && task'.commit.Some?
                && var c := task'.commit.value;
                   && env'.vaults == env.vaults[VaultId(c.prepared) := c.written]
                   && env.Lookup(VaultId(c.prepared)) == c.replaced
                   && c.written.content == c.prepared.content)
  {
  }

  /** The tail of an import fails exactly on a destroyed cache it has to write, or a throwing handler. */
  lemma TailFailsExactlyWhen(codec: Codec, env: Env, task: Task, input: Input)
    requires TaskOk(codec, task) && task.phase.Durable?
    ensures var task' := Segment(codec, env, task, input).1;
            var p := task.phase.prepared;
            && (task'.cacheThrew <==> env.passwords.destroyed && p.isEncrypted && Truthy(task.request.password))
            && (task'.handlerThrew <==> !task'.cacheThrew && p.migrated && input.handlerThrows)
            && (task'.phase.Failed? <==> task'.cacheThrew || task'.handlerThrew)
  {
  }

  // ----- reject -----

  /** Every record of `before` is still there, bit for bit. */
  ghost predicate KeepsRecords(before: map<string, StoredVault>, after: map<string, StoredVault>) {
    forall id :: id in before ==> id in after && after[id] == before[id]
  }

  /** A `reject` import never touches a record that exists, whatever ran before it. */
  lemma RejectKeepsRecords(codec: Codec, env: Env, task: Task, input: Input)
    requires TaskOk(codec, task) && task.request.resolution == Reject
    ensures KeepsRecords(env.vaults, Segment(codec, env, task, input).0.vaults)
  {
    if task.phase.Comparing? {
      assert task.phase.current.None?;
    }
  }

  predicate JobsUse(w: World, allowed: set<Resolution>) {
    forall j :: j in w.jobs ==> w.jobs[j].task.request.resolution in allowed
  }

  lemma StepKeepsJobsUse(codec: Codec, w: World, event: Event, allowed: set<Resolution>)
    requires TasksOk(codec, w) && JobsUse(w, allowed)
    requires event.Begin? ==> event.request.resolution in allowed
    ensures JobsUse(Step(codec, w, event), allowed)
  {
    if event.Advance? && CanAdvance(w, event.job) {
      var Job(instance, task) := w.jobs[event.job];
      SegmentKeepsTaskOk(codec, EnvOf(w, instance), task, event.input);
    }
  }

  /** The imports, the password caches and the active pointer; no direct edit of a record. */
  predicate OnlyImports(events: seq<Event>) {
    forall e :: e in events ==> !e.EditMetadata? && !e.Delete?
  }

  lemma {:induction false} RejectRunKeepsRecords(codec: Codec, w: World, events: seq<Event>)
    requires TasksOk(codec, w) && JobsUse(w, {Reject})
    requires OnlyImports(events) && OnlyResolutions(events, {Reject})
    ensures KeepsRecords(w.vaults, Run(codec, w, events).vaults)
    decreases |events|
  {
    if events != [] {
      var event := events[0];
      assert event in events;
      var w' := Step(codec, w, event);
      if event.Advance? && CanAdvance(w, event.job) {
        var Job(instance, task) := w.jobs[event.job];
        RejectKeepsRecords(codec, EnvOf(w, instance), task, event.input);
      }
      StepKeepsTasksOk(codec, w, event);
      StepKeepsJobsUse(codec, w, event, {Reject});
      assert forall e :: e in events[1..] ==> e in events;
      RejectRunKeepsRecords(codec, w', events[1..]);
    }
  }

  // ----- replace: what was checked is what is overwritten -----

  function BaselineOf(phase: Phase): Option<StoredVault> {
    match phase
    case Prompting(_, existing, _) => Some(existing)
    case Saving(_, baseline) => baseline
    case Comparing(_, baseline, _) => baseline
    case _ => None
  }

  function PreparedOf(phase: Phase): Prepared
    requires phase.Prompting? || phase.Saving? || phase.Comparing?
  {
    phase.prepared
  }

  /** The stored record is the baseline, or a later revision of the same vault. */
  ghost predicate SameOrLater(vaults: map<string, StoredVault>, id: string, r: StoredVault) {
    && id in vaults
    && Revision(r) <= Revision(vaults[id])
    && (Revision(r) == Revision(vaults[id]) ==> r == vaults[id])
  }

  ghost predicate BaselineIsCurrent(vaults: map<string, StoredVault>, task: Task) {
    && (BaselineOf(task.phase).Some? ==>
          SameOrLater(vaults, VaultId(PreparedOf(task.phase)), BaselineOf(task.phase).value))
    && (task.phase.Comparing? ==> task.phase.current == task.phase.baseline)
    && (task.commit.Some? ==> task.commit.value.replaced == task.commit.value.baseline)
  }

  ghost predicate BaselinesCurrent(w: World) {
    forall j :: j in w.jobs ==> BaselineIsCurrent(w.vaults, w.jobs[j].task)
  }

  /** Records are only added, or replaced by a later revision. */
  ghost predicate Grows(before: map<string, StoredVault>, after: map<string, StoredVault>) {
    forall id :: id in before ==>
                   id in after && (after[id] == before[id] || Revision(after[id]) > Revision(before[id]))
  }

  lemma CommitGrows(codec: Codec, env: Env, task: Task, input: Input)
    requires TaskOk(codec, task) && BaselineIsCurrent(env.vaults, task) && task.phase.Comparing?
    ensures Grows(env.vaults, CompareAndSet(env, task, input).0.vaults)
    ensures BaselineIsCurrent(CompareAndSet(env, task, input).0.vaults, CompareAndSet(env, task, input).1)
  {
  }

  lemma ReadingKeepsBaseline(codec: Codec, env: Env, task: Task, input: Input)
    requires TaskOk(codec, task) && BaselineIsCurrent(env.vaults, task) && task.phase.Reading?
    ensures BaselineIsCurrent(env.vaults, Segment(codec, env, task, input).1)
  {
    var p := task.phase.prepared;
    ConflictCheckEndsOrSaves(codec, task.request, p, env.Lookup(VaultId(p)), env.passwords.Get(VaultId(p)));
  }

  lemma AnswerKeepsBaseline(codec: Codec, env: Env, task: Task, input: Input)
    requires BaselineIsCurrent(env.vaults, task) && task.phase.Prompting?
    ensures BaselineIsCurrent(env.vaults, Segment(codec, env, task, input).1)
  {
    var Prompting(p, existing, tried) := task.phase;
    AnswerEndsOrSaves(codec, task.request, p, existing, tried, input.answer);
  }

  lemma SegmentGrows(codec: Codec, env: Env, task: Task, input: Input)
    requires TaskOk(codec, task) && BaselineIsCurrent(env.vaults, task)
    ensures Grows(env.vaults, Segment(codec, env, task, input).0.vaults)
    ensures BaselineIsCurrent(Segment(codec, env, task, input).0.vaults, Segment(codec, env, task, input).1)
  {
    match task.phase
    case Reading(_) => ReadingKeepsBaseline(codec, env, task, input);
    case Prompting(_, _, _) => AnswerKeepsBaseline(codec, env, task, input);
    case Comparing(_, _, _) => CommitGrows(codec, env, task, input);
    case _ =>
  }

  lemma StepKeepsBaselines(codec: Codec, w: World, event: Event)
    requires TasksOk(codec, w) && BaselinesCurrent(w) && !event.Delete?
    ensures BaselinesCurrent(Step(codec, w, event))
    ensures Grows(w.vaults, Step(codec, w, event).vaults)
  {
    if event.Advance? && CanAdvance(w, event.job) {
      var Job(instance, task) := w.jobs[event.job];
      SegmentGrows(codec, EnvOf(w, instance), task, event.input);
    }
  }

  lemma {:induction false} RunKeepsBaselines(codec: Codec, w: World, events: seq<Event>)
    requires TasksOk(codec, w) && BaselinesCurrent(w) && DeletesNothing(events)
    ensures BaselinesCurrent(Run(codec, w, events))
    decreases |events|
  {
    if events != [] {
      assert events[0] in events;
      assert forall e :: e in events[1..] ==> e in events;
      StepKeepsTasksOk(codec, w, events[0]);
      StepKeepsBaselines(codec, w, events[0]);
      RunKeepsBaselines(codec, Step(codec, w, events[0]), events[1..]);
    }
  }

  /** As long as nothing is deleted, a durable import overwrote exactly the record it was checked against. */
  lemma CommitsOverwriteWhatWasChecked(codec: Codec, w: World, events: seq<Event>, j: nat)
    requires Fresh(w) && DeletesNothing(events)
    requires j in Run(codec, w, events).jobs && Run(codec, w, events).jobs[j].task.commit.Some?
    ensures var c := Run(codec, w, events).jobs[j].task.commit.value;
            && c.replaced == c.baseline
            && CommitOk(codec, Run(codec, w, events).jobs[j].task.request, c)
  {
    RunKeepsTasksOk(codec, w, events);
    RunKeepsBaselines(codec, w, events);
  }

  // ----- replace: the share of a stored vault never changes -----

  ghost predicate KeepsShares(codec: Codec, before: map<string, StoredVault>, after: map<string, StoredVault>) {
    forall id :: id in before ==>
                   id in after && SameStoredShare(codec, before[id].content, after[id].content)
  }

  lemma SegmentKeepsShares(codec: Codec, env: Env, task: Task, input: Input)
    requires Lawful(codec)
    requires TaskOk(codec, task) && BaselineIsCurrent(env.vaults, task)
    requires task.request.resolution != ReplaceUnvalidated
    ensures KeepsShares(codec, env.vaults, Segment(codec, env, task, input).0.vaults)
  {
    SegmentWritesWholeRecordOnce(codec, env, task, input);
    SegmentGrows(codec, env, task, input);
    SegmentKeepsTaskOk(codec, env, task, input);
    var (env', task') := Segment(codec, env, task, input);
    if env'.vaults != env.vaults {
      var c := task'.commit.value;
      PreparedContentDecodes(codec, task.request.text, task.request.password, task.request.salt);
      assert Decodes(codec, c.written.content, c.prepared.vault);
    }
  }

  lemma StepKeepsShares(codec: Codec, w: World, event: Event)
    requires Lawful(codec)
    requires TasksOk(codec, w) && BaselinesCurrent(w) && JobsUse(w, {Reject, Replace})
    requires !event.Delete?
    ensures KeepsShares(codec, w.vaults, Step(codec, w, event).vaults)
  {
    if event.Advance? && CanAdvance(w, event.job) {
      var Job(instance, task) := w.jobs[event.job];
      SegmentKeepsShares(codec, EnvOf(w, instance), task, event.input);
    }
  }

  lemma KeepsSharesIsTransitive(codec: Codec, a: map<string, StoredVault>, b: map<string, StoredVault>,
                                c: map<string, StoredVault>)
    requires KeepsShares(codec, a, b) && KeepsShares(codec, b, c)
    requires forall id :: id in b ==> OnePlaintext(codec, b[id].content)
    ensures KeepsShares(codec, a, c)
  {
    forall id | id in a ensures id in c && SameStoredShare(codec, a[id].content, c[id].content)
    {
      SameStoredShareIsTransitive(codec, a[id].content, b[id].content, c[id].content);
    }
  }

  ghost predicate WritesOnePlaintext(codec: Codec, request: Request) {
    var prepared := PrepareImport(codec, request.text, request.password, request.salt);
    prepared.Ok? ==> OnePlaintext(codec, prepared.value.content)
  }

  /** No backup made for two passwords is stored or under way. */
  ghost predicate HoldsOnePlaintext(codec: Codec, w: World) {
    && (forall id :: id in w.vaults ==> OnePlaintext(codec, w.vaults[id].content))
    && (forall j :: j in w.jobs ==> WritesOnePlaintext(codec, w.jobs[j].task.request))
  }

  /** None is imported. */
  ghost predicate ImportsOnePlaintext(codec: Codec, events: seq<Event>) {
    forall e :: e in events && e.Begin? ==> WritesOnePlaintext(codec, e.request)
  }

  lemma StepHoldsOnePlaintext(codec: Codec, w: World, event: Event)
    requires TasksOk(codec, w) && HoldsOnePlaintext(codec, w)
    requires event.Begin? ==> WritesOnePlaintext(codec, event.request)
    ensures HoldsOnePlaintext(codec, Step(codec, w, event))
  {
    if event.Advance? && CanAdvance(w, event.job) {
      var Job(instance, task) := w.jobs[event.job];
      SegmentWritesWholeRecordOnce(codec, EnvOf(w, instance), task, event.input);
      SegmentKeepsTaskOk(codec, EnvOf(w, instance), task, event.input);
    }
  }

  lemma {:induction false} RunHoldsOnePlaintext(codec: Codec, w: World, events: seq<Event>)
    requires TasksOk(codec, w) && HoldsOnePlaintext(codec, w) && ImportsOnePlaintext(codec, events)
    ensures HoldsOnePlaintext(codec, Run(codec, w, events))
    decreases |events|
  {
    if events != [] {
      assert events[0] in events;
      assert forall e :: e in events[1..] ==> e in events;
      StepKeepsTasksOk(codec, w, events[0]);
      StepHoldsOnePlaintext(codec, w, events[0]);
      RunHoldsOnePlaintext(codec, Step(codec, w, events[0]), events[1..]);
    }
  }

  lemma {:induction false} RunKeepsShares(codec: Codec, w: World, events: seq<Event>)
    requires Lawful(codec) && HoldsOnePlaintext(codec, w) && ImportsOnePlaintext(codec, events)
    requires TasksOk(codec, w) && BaselinesCurrent(w) && JobsUse(w, {Reject, Replace})
    requires DeletesNothing(events) && OnlyResolutions(events, {Reject, Replace})
    ensures KeepsShares(codec, w.vaults, Run(codec, w, events).vaults)
    decreases |events|
  {
    if events != [] {
      var event := events[0];
      assert event in events;
      assert forall e :: e in events[1..] ==> e in events;
      var w' := Step(codec, w, event);
      StepKeepsShares(codec, w, event);
      StepHoldsOnePlaintext(codec, w, event);
      StepKeepsTasksOk(codec, w, event);
      StepKeepsJobsUse(codec, w, event, {Reject, Replace});
      StepKeepsBaselines(codec, w, event);
      RunKeepsShares(codec, w', events[1..]);
      KeepsSharesIsTransitive(codec, w.vaults, w'.vaults, Run(codec, w', events[1..]).vaults);
    }
  }

  lemma {:induction false} RunAppends(codec: Codec, w: World, first: seq<Event>, second: seq<Event>)
    ensures Run(codec, w, first + second) == Run(codec, Run(codec, w, first), second)
    decreases |first|
  {
    if first == [] {
      assert first + second == second;
    } else {
      assert (first + second)[1..] == first[1..] + second;
      RunAppends(codec, Step(codec, w, first[0]), first[1..], second);
    }
  }

  lemma {:induction false} RunKeepsJobsUse(codec: Codec, w: World, events: seq<Event>, allowed: set<Resolution>)
    requires TasksOk(codec, w) && JobsUse(w, allowed) && OnlyResolutions(events, allowed)
    ensures JobsUse(Run(codec, w, events), allowed)
    decreases |events|
  {
    if events != [] {
      assert events[0] in events;
      assert forall e :: e in events[1..] ==> e in events;
      StepKeepsTasksOk(codec, w, events[0]);
      StepKeepsJobsUse(codec, w, events[0], allowed);
      RunKeepsJobsUse(codec, Step(codec, w, events[0]), events[1..], allowed);
    }
  }

  /**
   * Over any interleaving of imports with `reject` or `replace`, ordinary edits, cache changes and
   * pointer switches, a vault that is stored at some moment stays stored with an equivalent share.
   */
  lemma SharesNeverChange(codec: Codec, w: World, earlier: seq<Event>, later: seq<Event>)
    requires Lawful(codec) && Fresh(w)
    requires HoldsOnePlaintext(codec, w) && ImportsOnePlaintext(codec, earlier + later)
    requires DeletesNothing(earlier + later) && OnlyResolutions(earlier + later, {Reject, Replace})
    ensures KeepsShares(codec, Run(codec, w, earlier).vaults, Run(codec, w, earlier + later).vaults)
    ensures HoldsOnePlaintext(codec, Run(codec, w, earlier))
    ensures HoldsOnePlaintext(codec, Run(codec, w, earlier + later))
  {
    assert forall e :: e in earlier ==> e in earlier + later;
    assert forall e :: e in later ==> e in earlier + later;
    RunKeepsTasksOk(codec, w, earlier);
    RunHoldsOnePlaintext(codec, w, earlier);
    RunHoldsOnePlaintext(codec, w, earlier + later);
    RunKeepsBaselines(codec, w, earlier);
    RunKeepsJobsUse(codec, w, earlier, {Reject, Replace});
    RunKeepsShares(codec, Run(codec, w, earlier), later);
    RunAppends(codec, w, earlier, later);
  }

  /**
   * So whatever such a run does after a moment, the record stored for a vault decodes to the share that it
   * held at that moment: the same local party, public keys, signers, chain code and key shares.
   */
  lemma StoredShareNeverChanges(
      codec: Codec, w: World, earlier: seq<Event>, later: seq<Event>, id: string, v: CoreVault)
    requires Lawful(codec) && Fresh(w) && DecodesWellFormed(codec)
    requires TotalPreorder(codec.keyOrder) && OrderIsAntisymmetric(codec.keyOrder)
    requires HoldsOnePlaintext(codec, w) && ImportsOnePlaintext(codec, earlier + later)
    requires DeletesNothing(earlier + later) && OnlyResolutions(earlier + later, {Reject, Replace})
    requires id in Run(codec, w, earlier).vaults && Decodes(codec, Run(codec, w, earlier).vaults[id].content, v)
    ensures var vaults := Run(codec, w, earlier + later).vaults;
            && id in vaults
            && (exists x :: Decodes(codec, vaults[id].content, x))
            && (forall x :: Decodes(codec, vaults[id].content, x) ==> SameShare(v, x))
  {
    SharesNeverChange(codec, w, earlier, later);
    var before, after := Run(codec, w, earlier).vaults[id].content, Run(codec, w, earlier + later).vaults[id].content;
    SameStoredShareMeansSameShare(codec, before, after, v);
  }

  /**
   * For any backups at all: a `replace` that became durable had opened the very record it overwrote, with
   * one of the passwords at hand, to the share that it wrote and that its own password opens again.
   */
  lemma ReplacementKeepsTheShareItRead(codec: Codec, w: World, events: seq<Event>, j: nat)
    requires Lawful(codec) && Fresh(w) && DeletesNothing(events) && DecodesWellFormed(codec)
    requires TotalPreorder(codec.keyOrder) && OrderIsAntisymmetric(codec.keyOrder)
    requires j in Run(codec, w, events).jobs
    requires var task := Run(codec, w, events).jobs[j].task;
             task.request.resolution == Replace && task.commit.Some? && task.commit.value.replaced.Some?
    ensures var task := Run(codec, w, events).jobs[j].task;
            var c := task.commit.value;
            && DecodePayload(codec, c.written.content, task.request.password) == Some(c.prepared.vault)
            && exists q, v ::
                 DecodePayload(codec, c.replaced.value.content, q) == Some(v) && SameShare(v, c.prepared.vault)
  {
    CommitsOverwriteWhatWasChecked(codec, w, events, j);
    var task := Run(codec, w, events).jobs[j].task;
    var c, r := task.commit.value, task.request;
    PreparedContentDecodes(codec, r.text, r.password, r.salt);
    assert Decodes(codec, c.written.content, c.prepared.vault);
    var v :| Decodes(codec, c.baseline.value.content, v) && Accepts(codec.keyOrder, v, c.prepared.vault);
    AcceptedMeansSameShare(codec, c.baseline.value.content, v, c.written.content, c.prepared.vault);
    var q :| DecodePayload(codec, c.replaced.value.content, q) == Some(v);
  }

  /** In runs with `reject` only, a stored record stays the same record. */
  lemma RejectNeverChangesARecord(codec: Codec, w: World, earlier: seq<Event>, later: seq<Event>)
    requires Fresh(w)
    requires OnlyImports(later) && OnlyResolutions(earlier + later, {Reject})
    ensures KeepsRecords(Run(codec, w, earlier).vaults, Run(codec, w, earlier + later).vaults)
  {
    assert forall e :: e in earlier ==> e in earlier + later;
    assert forall e :: e in later ==> e in earlier + later;
    RunKeepsTasksOk(codec, w, earlier);
    RunKeepsJobsUse(codec, w, earlier, {Reject});
    RejectRunKeepsRecords(codec, Run(codec, w, earlier), later);
    RunAppends(codec, w, earlier, later);
  }

  // ----- no update is lost -----

  /** How often a run replaces the record of `id`. */
  ghost function Writes(codec: Codec, w: World, events: seq<Event>, id: string): nat
    decreases |events|
  {
    if events == [] then 0
    else
      var w' := Step(codec, w, events[0]);
      var changed := id in w.vaults && id in w'.vaults && w.vaults[id] != w'.vaults[id];
      (if changed then 1 else 0) + Writes(codec, w', events[1..], id)
  }

  lemma StepCountsWrites(codec: Codec, w: World, event: Event, id: string)
    requires !event.Delete? && id in w.vaults
    ensures var w' := Step(codec, w, event);
            id in w'.vaults
            && (w'.vaults[id] == w.vaults[id] || Revision(w'.vaults[id]) == Revision(w.vaults[id]) + 1)
  {
  }

  /** The revision counts the durable writes one by one, so no two of them used the same baseline. */
  lemma {:induction false} RevisionCountsWrites(codec: Codec, w: World, events: seq<Event>, id: string)
    requires DeletesNothing(events) && id in w.vaults
    ensures id in Run(codec, w, events).vaults
    ensures Revision(Run(codec, w, events).vaults[id]) == Revision(w.vaults[id]) + Writes(codec, w, events, id)
    decreases |events|
  {
    if events != [] {
      assert events[0] in events;
      assert forall e :: e in events[1..] ==> e in events;
      StepCountsWrites(codec, w, events[0], id);
      RevisionCountsWrites(codec, Step(codec, w, events[0]), events[1..], id);
    }
  }

  // ----- what a delete in between can do -----

  /** A saving import overwrites a record it never checked exactly when that record has the checked revision. */
  lemma UncheckedOverwriteExactlyWhen(codec: Codec, env: Env, task: Task, first: Input, second: Input)
    requires TaskOk(codec, task) && task.phase.Saving? && task.phase.baseline.Some?
    requires !first.fault && (second.fault ==> second.late)
    ensures var r := task.phase.baseline.value;
            var found := env.Lookup(VaultId(task.phase.prepared));
            var end := Segment(codec, env, Segment(codec, env, task, first).1, second).1;
            (end.commit.Some? && end.commit.value.replaced != end.commit.value.baseline)
            <==> (found.Some? && found.value != r && RevisionIsValid(found.value)
                  && Revision(found.value) == Revision(r))
  {
  }

  function Quiet(now: int): Input {
    Input(false, false, None, false, now)
  }

  lemma RunUnfolds(codec: Codec, w: World, event: Event, rest: seq<Event>)
    ensures Run(codec, w, [event] + rest) == Run(codec, Step(codec, w, event), rest)
  {
    assert ([event] + rest)[1..] == rest;
  }

  function Advances(job: nat, n: nat, now: int): seq<Event> {
    if n == 0 then [] else [Advance(job, Quiet(now))] + Advances(job, n - 1, now)
  }

  /** The first half of an undisturbed import of a vault that is not stored. */
  lemma FirstImportReachesSave(codec: Codec, w: World, k: nat, instance: nat, request: Request, now: int)
    requires k !in w.jobs && instance in w.caches && request.canCompareAndSet
    requires PrepareImport(codec, request.text, request.password, request.salt).Ok?
    requires VaultId(PrepareImport(codec, request.text, request.password, request.salt).value) !in w.vaults
    ensures var p := PrepareImport(codec, request.text, request.password, request.salt).value;
            var task := NewTask(request).(phase := Comparing(p, None, None));
            Run(codec, w, [Begin(k, instance, request)] + Advances(k, 3, now))
            == w.(jobs := w.jobs[k := Job(instance, task)])
  {
    var p := PrepareImport(codec, request.text, request.password, request.salt).value;
    RunUnfolds(codec, w, Begin(k, instance, request), Advances(k, 3, now));
    var w0 := Step(codec, w, Begin(k, instance, request));
    RunUnfolds(codec, w0, Advance(k, Quiet(now)), Advances(k, 2, now));
    var w1 := Step(codec, w0, Advance(k, Quiet(now)));
    assert w1.jobs[k].task.phase == Reading(p);
    RunUnfolds(codec, w1, Advance(k, Quiet(now)), Advances(k, 1, now));
    var w2 := Step(codec, w1, Advance(k, Quiet(now)));
    assert w2.jobs[k].task.phase == Saving(p, None);
    RunUnfolds(codec, w2, Advance(k, Quiet(now)), Advances(k, 0, now));
    var w3 := Step(codec, w2, Advance(k, Quiet(now)));
    var task := NewTask(request).(phase := Comparing(p, None, None));
    assert w3.jobs[k] == Job(instance, task);
    assert w3.caches == w.caches && w3.jobs == w.jobs[k := Job(instance, task)];
    assert w3 == w.(jobs := w.jobs[k := Job(instance, task)]);
  }

  lemma {:induction false} AdvancesAppend(job: nat, n: nat, now: int)
    ensures Advances(job, n + 1, now) == Advances(job, n, now) + [Advance(job, Quiet(now))]
  {
    if n > 0 {
      AdvancesAppend(job, n - 1, now);
    }
  }

  /** A new vault is imported without a check and gets revision 1. */
  lemma FirstImportStores(codec: Codec, w: World, k: nat, instance: nat, request: Request, now: int)
    requires k !in w.jobs && instance in w.caches && request.canCompareAndSet
    requires PrepareImport(codec, request.text, request.password, request.salt).Ok?
    requires VaultId(PrepareImport(codec, request.text, request.password, request.salt).value) !in w.vaults
    ensures var p := PrepareImport(codec, request.text, request.password, request.salt).value;
            var record := NewRecord(p, None, now);
            var task := NewTask(request).(phase := Durable(p, None), commit := Some(Commit(p, None, None, record)));
            Run(codec, w, [Begin(k, instance, request)] + Advances(k, 4, now))
            == w.(vaults := w.vaults[VaultId(p) := record], jobs := w.jobs[k := Job(instance, task)])
  {
    var first, last := [Begin(k, instance, request)] + Advances(k, 3, now), [Advance(k, Quiet(now))];
    AdvancesAppend(k, 3, now);
    assert [Begin(k, instance, request)] + Advances(k, 4, now) == first + last;
    RunAppends(codec, w, first, last);
    FirstImportReachesSave(codec, w, k, instance, request, now);
    var w3 := Run(codec, w, first);
    RunUnfolds(codec, w3, last[0], []);
    assert last == [last[0]] + [];
    assert Step(codec, w3, last[0]).caches == w.caches;
  }

  /**
   * A compare-and-set that throws after it wrote, as one whose lock cannot be released does, leaves the
   * record durable, but the import reports PERSISTENCE_FAILED and an upgrade goes unannounced.
   */
  lemma LateThrowHidesADurableImport(codec: Codec, w: World, k: nat, instance: nat, request: Request, now: int)
    requires k !in w.jobs && instance in w.caches && request.canCompareAndSet
    requires PrepareImport(codec, request.text, request.password, request.salt).Ok?
    requires VaultId(PrepareImport(codec, request.text, request.password, request.salt).value) !in w.vaults
    ensures var p := PrepareImport(codec, request.text, request.password, request.salt).value;
            var end := Run(codec, w, ([Begin(k, instance, request)] + Advances(k, 3, now))
                                     + [Advance(k, Input(true, true, None, false, now))]);
            && VaultId(p) in end.vaults && end.vaults[VaultId(p)] == NewRecord(p, None, now)
            && k in end.jobs && end.jobs[k].task.phase == Failed(PersistenceFailed) && !end.jobs[k].task.notified
            && end.jobs[k].task.saveThrew && !end.jobs[k].task.cacheThrew
  {
    var first := [Begin(k, instance, request)] + Advances(k, 3, now);
    var last := Advance(k, Input(true, true, None, false, now));
    RunAppends(codec, w, first, [last]);
    FirstImportReachesSave(codec, w, k, instance, request, now);
    RunUnfolds(codec, Run(codec, w, first), last, []);
    assert [last] == [last] + [];
  }

  /** A save goes through over any record whose revision is that of the record it was checked against. */
  lemma SameRevisionIsOverwritten(codec: Codec, w: World, j: nat, now: int)
    requires CanAdvance(w, j) && w.jobs[j].task.phase.Saving? && w.jobs[j].task.phase.baseline.Some?
    requires VaultId(w.jobs[j].task.phase.prepared) in w.vaults
    requires Revision(w.jobs[j].task.phase.baseline.value) == 1
    requires Revision(w.vaults[VaultId(w.jobs[j].task.phase.prepared)]) == 1
    ensures var prepared, r := w.jobs[j].task.phase.prepared, w.jobs[j].task.phase.baseline.value;
            var id, end := VaultId(prepared), Run(codec, w, Advances(j, 2, now));
            && j in end.jobs && id in end.vaults && end.vaults[id].content == prepared.content
            && end.jobs[j].task.commit.Some?
            && end.jobs[j].task.commit.value.baseline == Some(r)
            && end.jobs[j].task.commit.value.replaced == Some(w.vaults[id])
  {
    var prepared, r := w.jobs[j].task.phase.prepared, w.jobs[j].task.phase.baseline.value;
    RunUnfolds(codec, w, Advance(j, Quiet(now)), Advances(j, 1, now));
    var w1 := Step(codec, w, Advance(j, Quiet(now)));
    assert w1.jobs[j].task.phase == Comparing(prepared, Some(r), Some(w.vaults[VaultId(prepared)]));
    RunUnfolds(codec, w1, Advance(j, Quiet(now)), Advances(j, 0, now));
  }

  /**
   * Deleting the vault and importing any other backup of it in between brings the revision back to 1,
   * so a waiting `replace` overwrites that backup although it was checked against the deleted record.
   */
  lemma DeleteDefeatsTheCheck(codec: Codec, w: World, j: nat, k: nat, request: Request, now: int)
    requires CanAdvance(w, j) && w.jobs[j].task.phase.Saving?
    requires w.jobs[j].task.phase.baseline.Some? && Revision(w.jobs[j].task.phase.baseline.value) == 1
    requires k !in w.jobs && request.canCompareAndSet
    requires PrepareImport(codec, request.text, request.password, request.salt).Ok?
    requires VaultId(PrepareImport(codec, request.text, request.password, request.salt).value)
             == VaultId(w.jobs[j].task.phase.prepared)
    ensures var prepared, r := w.jobs[j].task.phase.prepared, w.jobs[j].task.phase.baseline.value;
            var other := PrepareImport(codec, request.text, request.password, request.salt).value;
            var id := VaultId(prepared);
            var events := [Delete(id)] + (([Begin(k, w.jobs[j].instance, request)] + Advances(k, 4, now))
                                          + Advances(j, 2, now));
            var end := Run(codec, w, events);
            && j in end.jobs && id in end.vaults && end.vaults[id].content == prepared.content
            && end.jobs[j].task.commit.Some?
            && end.jobs[j].task.commit.value.baseline == Some(r)
            && end.jobs[j].task.commit.value.replaced == Some(NewRecord(other, None, now))
  {
    var prepared, r := w.jobs[j].task.phase.prepared, w.jobs[j].task.phase.baseline.value;
    var id, instance := VaultId(prepared), w.jobs[j].instance;
    var restart := [Begin(k, instance, request)] + Advances(k, 4, now);
    RunUnfolds(codec, w, Delete(id), restart + Advances(j, 2, now));
    var w1 := Step(codec, w, Delete(id));
    RunAppends(codec, w1, restart, Advances(j, 2, now));
    FirstImportStores(codec, w1, k, instance, request, now);
    var w2 := Run(codec, w1, restart);
    assert w2.jobs[j] == w.jobs[j] && Revision(w2.vaults[id]) == 1;
    SameRevisionIsOverwritten(codec, w2, j, now);
  }

  /**
   * Disposing the SDK while an encrypted backup is being saved leaves the record durable, but the
   * import reports CORRUPTED_DATA and an upgrade goes unannounced.
   */
  lemma DisposeHidesADurableImport(codec: Codec, w: World, k: nat, instance: nat, request: Request, now: int)
    requires k !in w.jobs && instance in w.caches && request.canCompareAndSet
    requires PrepareImport(codec, request.text, request.password, request.salt).Ok?
    requires PrepareImport(codec, request.text, request.password, request.salt).value.isEncrypted
    requires VaultId(PrepareImport(codec, request.text, request.password, request.salt).value) !in w.vaults
    ensures var p := PrepareImport(codec, request.text, request.password, request.salt).value;
            var end := Run(codec, w, ([Begin(k, instance, request)] + Advances(k, 4, now))
                                     + ([Dispose(instance)] + Advances(k, 1, now)));
            && VaultId(p) in end.vaults && end.vaults[VaultId(p)].content == p.content
            && k in end.jobs && end.jobs[k].task.phase == Failed(CorruptedData) && !end.jobs[k].task.notified
  {
    var p := PrepareImport(codec, request.text, request.password, request.salt).value;
    var first := [Begin(k, instance, request)] + Advances(k, 4, now);
    RunAppends(codec, w, first, [Dispose(instance)] + Advances(k, 1, now));
    FirstImportStores(codec, w, k, instance, request, now);
    var w1 := Run(codec, w, first);
    RunUnfolds(codec, w1, Dispose(instance), Advances(k, 1, now));
    var w2 := Step(codec, w1, Dispose(instance));
    assert w2.jobs[k] == w1.jobs[k] && w2.caches[instance].destroyed;
    RunUnfolds(codec, w2, Advance(k, Quiet(now)), Advances(k, 0, now));
  }
}
