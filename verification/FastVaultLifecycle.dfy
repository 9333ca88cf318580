/**
 * Fast vaults from creation to verification: pending in memory or on disk until the server accepts the
 * code, then saved and made active. First each operation as it runs alone, then any number of them as
 * tasks that can be interleaved at every await.
 */
module FastVaultLifecycle {
  import opened Wrappers

  type VaultId = string

  /** A vault object; its baseline is the revision it believes is stored, if it was ever saved or loaded. */
  datatype Instance = Instance(id: VaultId, baseline: Option<nat>)

  /** Storage (revisions of the vault records, the active pointer, the pending records) and pending objects. */
  datatype State = State(
    stored: map<VaultId, nat>,
    active: Option<VaultId>,
    disk: set<VaultId>,
    memory: map<VaultId, nat>,
    instances: seq<Instance>)

  function Revision(s: State, id: VaultId): Option<nat> {
    if id in s.stored then Some(s.stored[id]) else None
  }

  /** `vault.save()` succeeds when the stored revision is the one the object knows. */
  predicate CanSave(s: State, h: nat) {
    h < |s.instances| && Revision(s, s.instances[h].id) == s.instances[h].baseline
  }

  function Saved(s: State, h: nat): State
    requires CanSave(s, h)
  {
    var i := s.instances[h];
    var next := (if i.baseline.Some? then i.baseline.value else 0) + 1;
    s.(stored := s.stored[i.id := next], instances := s.instances[h := Instance(i.id, Some(next))])
  }

  /** A save whose write took effect and then threw: the object does not learn of it. */
  function SavedUnnoticed(s: State, h: nat): State
    requires CanSave(s, h)
  {
    s.(stored := Saved(s, h).stored)
  }

  /** A new object that is not persisted, as creation and the pending record on disk make it. */
  function WithNewInstance(s: State, id: VaultId): State {
    s.(instances := s.instances + [Instance(id, None)])
  }

  function Forgotten(s: State, id: VaultId): State {
    s.(memory := s.memory - {id})
  }

  /**
   * Outcomes of the awaited calls of one operation, in the order they are made; `late` says that the storage
   * call that throws took effect before it did.
   */
  datatype Outcomes = Outcomes(
    readOk: bool, serverOk: bool, accepted: bool, saveOk: bool, activeOk: bool, removeOk: bool, late: bool)

  datatype Result = Verified | NoPendingVault | Rejected | Failed

  // ----- one operation at a time -----

  /** The object `verifyVault` works on: the pending one, else one made from the pending record. */
  function Found(s: State, id: VaultId, readOk: bool): (State, Option<nat>) {
    if id in s.memory then (s, Some(s.memory[id]))
    else if readOk && id in s.disk then (WithNewInstance(s, id), Some(|s.instances|))
    else (s, None)
  }

  class Vultisig {
    var stored: map<VaultId, nat>
    var active: Option<VaultId>
    var disk: set<VaultId>
    var pendingVaults: map<VaultId, nat>
    var instances: seq<Instance>

    ghost function View(): State
      reads this
    {
      State(stored, active, disk, pendingVaults, instances)
    }

    ghost predicate Valid()
      reads this
    {
      PendingObjectsMatch(View())
    }

    constructor (stored: map<VaultId, nat>, active: Option<VaultId>, disk: set<VaultId>)
      ensures Valid() && View() == State(stored, active, disk, map[], [])
    {
      this.stored, this.active, this.disk, pendingVaults, instances := stored, active, disk, map[], [];
    }

    method Save(h: nat, ok: bool, late: bool) returns (saved: bool)
      requires Valid() && h < |instances|
      modifies this`stored, this`instances
      ensures Valid() && saved == (ok && CanSave(old(View()), h))
      ensures View() == if saved then Saved(old(View()), h)
                        else if late && CanSave(old(View()), h) then SavedUnnoticed(old(View()), h)
                        else old(View())
    {
      var i := instances[h];
      var actual := if i.id in stored then Some(stored[i.id]) else None;
      if actual != i.baseline {
        return false;
      }
      var next := (if actual.Some? then actual.value else 0) + 1;
      if ok || late {
        stored := stored[i.id := next];
      }
      if !ok {
        return false;
      }
      instances := instances[h := Instance(i.id, Some(next))];
      return true;
    }

    /**
     * `verifyVault`: nothing changes before the server accepts; after success the vault is stored, active
     * and not pending.
     */
    method VerifyVault(id: VaultId, out: Outcomes) returns (result: Result)
      requires Valid()
      modifies this
      ensures Valid()
      ensures result == Verified ==>
                && id in stored && active == Some(id) && id !in pendingVaults && id !in disk
                && out.serverOk && out.accepted
      ensures result != Verified && !(out.serverOk && out.accepted) ==>
                && stored == old(stored) && active == old(active)
                && disk == old(disk) && pendingVaults == old(pendingVaults)
      ensures result == Rejected ==> !out.accepted
      ensures result == NoPendingVault <==> id !in old(pendingVaults) && out.readOk && id !in old(disk)
      ensures result == Verified <==>
                && Found(old(View()), id, out.readOk).1.Some?
                && out.serverOk && out.accepted && out.saveOk && out.activeOk && out.removeOk
                && CanSave(Found(old(View()), id, out.readOk).0, Found(old(View()), id, out.readOk).1.value)
      ensures result == Verified ==>
                View() == Completed(Found(old(View()), id, true).0, id, Found(old(View()), id, true).1.value)
      ensures result == Rejected ==> View() == Found(old(View()), id, true).0
      ensures Found(old(View()), id, out.readOk).1.Some? && out.serverOk && out.accepted ==>
                var known := if id in old(pendingVaults) then old(instances[pendingVaults[id]].baseline) else None;
                var matches := (if id in old(stored) then Some(old(stored)[id]) else None) == known;
                var next := if known.Some? then known.value + 1 else 1;
                var saved := matches && out.saveOk;
                && stored == (if matches && (out.saveOk || out.late) then old(stored)[id := next] else old(stored))
                && active == (if saved && (out.activeOk || out.late) then Some(id) else old(active))
                && pendingVaults == (if saved && out.activeOk then old(pendingVaults) - {id} else old(pendingVaults))
                && disk == if saved && out.activeOk && (out.removeOk || out.late) then old(disk) - {id} else old(disk)
      ensures forall other :: other != id ==>
                && (other in stored <==> other in old(stored))
                && (other in stored ==> stored[other] == old(stored)[other])
                && (other in disk <==> other in old(disk))
                && (other in pendingVaults <==> other in old(pendingVaults))
    {
      var h: nat;
      if id in pendingVaults {
        h := pendingVaults[id];
      } else {
        if !out.readOk {
          return Failed;
        }
        if id !in disk {
          return NoPendingVault;
        }
        h := |instances|;
        instances := instances + [Instance(id, None)];
      }
      if !out.serverOk {
        return Failed;
      }
      if !out.accepted {
        return Rejected;
      }
      var saved := Save(h, out.saveOk, out.late);
      if !saved {
        return Failed;
      }
      if out.activeOk || out.late {
        active := Some(id);
      }
      if !out.activeOk {
        return Failed;
      }
      pendingVaults := pendingVaults - {id};
      if out.removeOk || out.late {
        disk := disk - {id};
      }
      return if out.removeOk then Verified else Failed;
    }

    /** `createFastVault` behind the key generation. */
    method CreateFastVault(id: VaultId, skipVerification: bool, persistPending: bool, out: Outcomes) returns (ok: bool)
      requires Valid()
      modifies this
      ensures Valid()
      ensures ok <==> if skipVerification then out.saveOk && out.activeOk && id !in old(stored)
                      else !persistPending || out.saveOk
      ensures !skipVerification ==>
                && stored == old(stored) && active == old(active)
                && pendingVaults == old(pendingVaults)[id := |old(instances)|]
                && disk == old(disk) + (if persistPending && (out.saveOk || out.late) then {id} else {})
                && instances == old(instances) + [Instance(id, None)]
      ensures skipVerification ==>
                var isNew := id !in old(stored);
                && pendingVaults == old(pendingVaults) && disk == old(disk)
                && stored == (if isNew && (out.saveOk || out.late) then old(stored)[id := 1] else old(stored))
                && active == (if isNew && out.saveOk && (out.activeOk || out.late) then Some(id) else old(active))
                && instances == old(instances) + [Instance(id, if isNew && out.saveOk then Some(1) else None)]
    {
      var h := |instances|;
      instances := instances + [Instance(id, None)];
      if skipVerification {
        ok := Save(h, out.saveOk, out.late);
        if ok && (out.activeOk || out.late) {
          active := Some(id);
        }
        return ok && out.activeOk;
      }
      pendingVaults := pendingVaults[id := h];
      if persistPending && (out.saveOk || out.late) {
        disk := disk + {id};
      }
      return !persistPending || out.saveOk;
    }

    /** `createFastVaultFromSeedphrase`: setting chains saves the vault, long before any code is verified. */
    method CreateFromSeedphrase(id: VaultId, setsChains: bool, out: Outcomes) returns (ok: bool)
      requires Valid()
      modifies this
      ensures Valid()
      ensures ok <==> (setsChains ==> out.saveOk && id !in old(stored))
      ensures active == old(active) && disk == old(disk)
      ensures pendingVaults == if ok then old(pendingVaults)[id := |old(instances)|] else old(pendingVaults)
      ensures stored == if setsChains && id !in old(stored) && (out.saveOk || out.late) then old(stored)[id := 1]
                        else old(stored)
      ensures instances == old(instances) + [Instance(id, if setsChains && ok then Some(1) else None)]
    {
      var h := |instances|;
      instances := instances + [Instance(id, None)];
      if setsChains {
        ok := Save(h, out.saveOk, out.late);
        if !ok {
          return;
        }
      }
      pendingVaults := pendingVaults[id := h];
      return true;
    }

    method DeletePendingVault(id: VaultId, removeOk: bool, late: bool) returns (ok: bool)
      requires Valid()
      modifies this`disk, this`pendingVaults
      ensures Valid() && ok == removeOk
      ensures disk == if ok || late then old(disk) - {id} else old(disk)
      ensures pendingVaults == if ok then old(pendingVaults) - {id} else old(pendingVaults)
    {
      if removeOk || late {
        disk := disk - {id};
      }
      if removeOk {
        pendingVaults := pendingVaults - {id};
      }
      return removeOk;
    }
  }

  ghost predicate PendingObjectsMatch(s: State) {
    forall id :: id in s.memory ==> s.memory[id] < |s.instances| && s.instances[s.memory[id]].id == id
  }

  // ----- interleaved operations -----

  datatype Purpose = Verifying | Skipping | Seeding

  /** Where a task is suspended, or how it ended. */
  datatype Phase =
    | ReadPending(id: VaultId)
    | AskServer(id: VaultId, handle: nat)
    | Saving(id: VaultId, handle: nat, purpose: Purpose)
    | SetActive(id: VaultId, purpose: Purpose)
    | RemovePending(id: VaultId)
    | WritePending(id: VaultId)
    | DeletePending(id: VaultId)
    | ListKeys
    | RemoveKeys(vaults: set<VaultId>, pending: set<VaultId>)
    | RemoveActive
    | Ended
    | VerifiedEnd(id: VaultId)
    | FailedEnd

  datatype StorageKey = VaultKey(id: VaultId) | PendingKey(id: VaultId)

  /** How an awaited call ends; one that throws may have taken effect in storage before it did. */
  datatype CallEnd = Fine | Threw | ThrewLate

  datatype Event =
    | StartCreate(task: nat, id: VaultId, skipVerification: bool, persistPending: bool)
    | StartSeed(task: nat, id: VaultId, setsChains: bool)
    | StartVerify(task: nat, id: VaultId)
    | StartDeletePending(task: nat, id: VaultId)
    | StartClear(task: nat)
    | Resume(task: nat, call: CallEnd, accepted: bool, key: StorageKey)
    | DeleteVault(id: VaultId)

  /** The state, the tasks, and what happened so far: ids created, skipped, seeded with chains, and accepted. */
  datatype World = World(
    s: State,
    tasks: map<nat, Phase>,
    created: set<VaultId>,
    skipped: set<VaultId>,
    seeded: set<VaultId>,
    accepted: set<VaultId>)

  function At(w: World, task: nat, phase: Phase): World {
    w.(tasks := w.tasks[task := phase])
  }

  /**
   * A task starts once. The id of a generated vault is a fresh public key; a seedphrase has its own id,
   * and creating from it again makes another object for that id.
   */
  function Start(w: World, event: Event): World
    requires !event.Resume? && !event.DeleteVault?
  {
    if event.task in w.tasks then w
    else
      match event
      case StartCreate(task, id, skip, persist) =>
        if id in w.created then w
        else
          var h := |w.s.instances|;
          var w' := w.(s := WithNewInstance(w.s, id), created := w.created + {id});
          if skip then At(w'.(skipped := w.skipped + {id}), task, Saving(id, h, Skipping))
          else At(w'.(s := w'.s.(memory := w.s.memory[id := h])), task, if persist then WritePending(id) else Ended)
      case StartSeed(task, id, setsChains) =>
        var h := |w.s.instances|;
        var w' := w.(s := WithNewInstance(w.s, id), created := w.created + {id});
        if setsChains then At(w'.(seeded := w.seeded + {id}), task, Saving(id, h, Seeding))
        else At(w'.(s := w'.s.(memory := w.s.memory[id := h])), task, Ended)
      case StartVerify(task, id) =>
        At(w, task, if id in w.s.memory then AskServer(id, w.s.memory[id]) else ReadPending(id))
      case StartDeletePending(task, id) => At(w, task, DeletePending(id))
      case StartClear(task) => At(w, task, ListKeys)
  }

  /** What a storage call that threw did all the same. */
  function LateEffect(s: State, phase: Phase, key: StorageKey): State {
    match phase
    case Saving(_, h, _) => if CanSave(s, h) then SavedUnnoticed(s, h) else s
    case SetActive(id, _) => s.(active := Some(id))
    case RemovePending(id) => s.(disk := s.disk - {id})
    case WritePending(id) => s.(disk := s.disk + {id})
    case DeletePending(id) => s.(disk := s.disk - {id})
    case RemoveKeys(vaults, pending) =>
      if key.VaultKey? && key.id in vaults then s.(stored := s.stored - {key.id})
      else if key.PendingKey? && key.id in pending then s.(disk := s.disk - {key.id})
      else s
    case RemoveActive => s.(active := None)
    case _ => s
  }

  /** A task goes on after its awaited call: it ends when that call throws. */
  function Continue(w: World, task: nat, call: CallEnd, accepted: bool, key: StorageKey): World
    requires task in w.tasks
  {
    var phase := w.tasks[task];
    if phase.Ended? || phase.VerifiedEnd? || phase.FailedEnd? then w
    else if call.Threw? then At(w, task, FailedEnd)
    else if call.ThrewLate? then At(w.(s := LateEffect(w.s, phase, key)), task, FailedEnd)
    else
      match phase
      case ReadPending(id) =>
        if id in w.s.disk then At(w.(s := WithNewInstance(w.s, id)), task, AskServer(id, |w.s.instances|))
        else At(w, task, FailedEnd)
      case AskServer(id, h) =>
        if accepted then At(w.(accepted := w.accepted + {id}), task, Saving(id, h, Verifying))
        else At(w, task, FailedEnd)
      case Saving(id, h, purpose) =>
        if !CanSave(w.s, h) then At(w, task, FailedEnd)
        else if purpose.Seeding? then
          At(w.(s := Saved(w.s, h).(memory := w.s.memory[id := h])), task, Ended)
        else At(w.(s := Saved(w.s, h)), task, SetActive(id, purpose))
      case SetActive(id, purpose) =>
        if purpose.Verifying? then At(w.(s := Forgotten(w.s, id).(active := Some(id))), task, RemovePending(id))
        else At(w.(s := w.s.(active := Some(id))), task, Ended)
      case RemovePending(id) => At(w.(s := w.s.(disk := w.s.disk - {id})), task, VerifiedEnd(id))
      case WritePending(id) => At(w.(s := w.s.(disk := w.s.disk + {id})), task, Ended)
      case DeletePending(id) => At(w.(s := Forgotten(w.s, id).(disk := w.s.disk - {id})), task, Ended)
      case ListKeys => At(w, task, RemoveKeys(w.s.stored.Keys, w.s.disk))
      case RemoveKeys(vaults, pending) =>
        if vaults == {} && pending == {} then At(w, task, RemoveActive)
        else if key.VaultKey? && key.id in vaults then
          At(w.(s := w.s.(stored := w.s.stored - {key.id})), task, RemoveKeys(vaults - {key.id}, pending))
        else if key.PendingKey? && key.id in pending then
          At(w.(s := w.s.(disk := w.s.disk - {key.id})), task, RemoveKeys(vaults, pending - {key.id}))
        else w
      case RemoveActive => At(w.(s := w.s.(active := None, memory := map[])), task, Ended)
  }

  function Step(w: World, event: Event): World {
    match event
    case Resume(task, call, accepted, key) => if task in w.tasks then Continue(w, task, call, accepted, key) else w
    case DeleteVault(id) =>
      w.(s := w.s.(stored := w.s.stored - {id}, active := if w.s.active == Some(id) then None else w.s.active))
    case _ => Start(w, event)
  }

  function Run(w: World, events: seq<Event>): World
    decreases |events|
  {
    if events == [] then w else Step(Run(w, events[..|events| - 1]), events[|events| - 1])
  }

  /** A start of the process: what is in storage was created earlier, and nothing is in memory. */
  function Booted(stored: map<VaultId, nat>, active: Option<VaultId>, disk: set<VaultId>): World {
    World(State(stored, active, disk, map[], []), map[], stored.Keys + disk, {}, {}, {})
  }

  // ----- nothing is stored unverified, except by skipping or by setting chains -----

  ghost predicate PhaseMatches(w: World, phase: Phase) {
    match phase
    case AskServer(id, h) => h < |w.s.instances| && w.s.instances[h].id == id
    case Saving(id, h, purpose) =>
      && h < |w.s.instances| && w.s.instances[h].id == id
      && (match purpose
          case Verifying => id in w.accepted
          case Skipping => id in w.skipped
          case Seeding => id in w.seeded)
    case _ => true
  }

  ghost predicate Guarded(w: World, before: set<VaultId>) {
    && PendingObjectsMatch(w.s)
    && (forall t :: t in w.tasks ==> PhaseMatches(w, w.tasks[t]))
    && w.s.stored.Keys <= before + w.accepted + w.skipped + w.seeded
  }

  /** Objects keep their ids, and the history only grows. */
  ghost predicate Extends(w: World, w': World) {
    && |w.s.instances| <= |w'.s.instances|
    && (forall h :: 0 <= h < |w.s.instances| ==> w'.s.instances[h].id == w.s.instances[h].id)
    && w.accepted <= w'.accepted && w.skipped <= w'.skipped && w.seeded <= w'.seeded
  }

  /** The tasks and pending objects are as before, except for one of each that is new. */
  ghost predicate ChangesOne(w: World, w': World, task: nat, id: VaultId) {
    && (forall t :: t in w'.tasks && t != task ==> t in w.tasks && w'.tasks[t] == w.tasks[t])
    && (forall i :: i in w'.s.memory && i != id ==> i in w.s.memory && w'.s.memory[i] == w.s.memory[i])
    && (id in w'.s.memory ==> w'.s.memory[id] < |w'.s.instances| && w'.s.instances[w'.s.memory[id]].id == id)
    && (task in w'.tasks ==> PhaseMatches(w', w'.tasks[task]))
  }

  lemma ChangesOneKeepsGuarded(w: World, w': World, task: nat, id: VaultId, before: set<VaultId>)
    requires Guarded(w, before) && Extends(w, w') && ChangesOne(w, w', task, id)
    requires w'.s.stored.Keys <= before + w'.accepted + w'.skipped + w'.seeded
    ensures Guarded(w', before)
  {
    forall t | t in w'.tasks ensures PhaseMatches(w', w'.tasks[t]) {
      if t != task {
        assert PhaseMatches(w, w.tasks[t]);
      }
    }
  }

  lemma CreationKeepsGuarded(w: World, event: Event, before: set<VaultId>)
    requires Guarded(w, before) && (event.StartCreate? || event.StartSeed?)
    ensures Guarded(Start(w, event), before)
  {
    if Start(w, event) != w {
      ChangesOneKeepsGuarded(w, Start(w, event), event.task, event.id, before);
    }
  }

  lemma StartKeepsGuarded(w: World, event: Event, before: set<VaultId>)
    requires Guarded(w, before) && !event.Resume? && !event.DeleteVault?
    ensures Guarded(Start(w, event), before)
  {
    if event.StartCreate? || event.StartSeed? {
      CreationKeepsGuarded(w, event, before);
    } else if event.task !in w.tasks {
      var id := if event.StartClear? then "" else event.id;
      ChangesOneKeepsGuarded(w, Start(w, event), event.task, id, before);
    }
  }

  lemma SavingKeepsGuarded(w: World, task: nat, call: CallEnd, accepted: bool, key: StorageKey, before: set<VaultId>)
    requires Guarded(w, before) && task in w.tasks && w.tasks[task].Saving? && CanSave(w.s, w.tasks[task].handle)
    requires !call.Threw?
    ensures Guarded(Continue(w, task, call, accepted, key), before)
  {
    var w', phase := Continue(w, task, call, accepted, key), w.tasks[task];
    assert PhaseMatches(w, phase);
    assert w'.s.stored.Keys == w.s.stored.Keys + {phase.id};
    ChangesOneKeepsGuarded(w, w', task, phase.id, before);
  }

  /** No new object, and nothing new stored or pending in memory. */
  ghost predicate AddsNothing(w: World, w': World, task: nat)
    requires task in w.tasks
  {
    && w'.s.instances == w.s.instances && w'.s.stored.Keys <= w.s.stored.Keys
    && (forall i :: i in w'.s.memory ==> i in w.s.memory && w'.s.memory[i] == w.s.memory[i])
    && w.accepted <= w'.accepted && w'.skipped == w.skipped && w'.seeded == w.seeded
    && w'.tasks.Keys == w.tasks.Keys && (forall t :: t in w.tasks && t != task ==> w'.tasks[t] == w.tasks[t])
    && PhaseMatches(w', w'.tasks[task])
  }

  lemma WaitingAddsNothing(w: World, task: nat, call: CallEnd, accepted: bool, key: StorageKey)
    requires task in w.tasks && PhaseMatches(w, w.tasks[task]) && !w.tasks[task].ReadPending?
    requires w.tasks[task].Saving? ==> call.Threw? || !CanSave(w.s, w.tasks[task].handle)
    ensures AddsNothing(w, Continue(w, task, call, accepted, key), task)
  {
    if w.tasks[task].RemoveKeys? {
      ClearingAddsNothing(w, task, call, accepted, key);
    }
  }

  lemma ClearingAddsNothing(w: World, task: nat, call: CallEnd, accepted: bool, key: StorageKey)
    requires task in w.tasks && w.tasks[task].RemoveKeys?
    ensures AddsNothing(w, Continue(w, task, call, accepted, key), task)
  {
  }

  lemma AddsNothingKeepsGuarded(w: World, w': World, task: nat, before: set<VaultId>)
    requires Guarded(w, before) && task in w.tasks && AddsNothing(w, w', task)
    ensures Guarded(w', before)
  {
    forall t | t in w'.tasks ensures PhaseMatches(w', w'.tasks[t]) {
      assert t != task ==> PhaseMatches(w, w.tasks[t]);
    }
  }

  lemma LookupKeepsGuarded(w: World, task: nat, call: CallEnd, accepted: bool, key: StorageKey, before: set<VaultId>)
    requires Guarded(w, before) && task in w.tasks && w.tasks[task].ReadPending?
    ensures Guarded(Continue(w, task, call, accepted, key), before)
  {
    ChangesOneKeepsGuarded(w, Continue(w, task, call, accepted, key), task, w.tasks[task].id, before);
  }

  lemma ContinueKeepsGuarded(w: World, task: nat, call: CallEnd, accepted: bool, key: StorageKey, before: set<VaultId>)
    requires Guarded(w, before) && task in w.tasks
    ensures Guarded(Continue(w, task, call, accepted, key), before)
  {
    if w.tasks[task].Saving? && !call.Threw? && CanSave(w.s, w.tasks[task].handle) {
      SavingKeepsGuarded(w, task, call, accepted, key, before);
    } else if w.tasks[task].ReadPending? {
      LookupKeepsGuarded(w, task, call, accepted, key, before);
    } else {
      assert PhaseMatches(w, w.tasks[task]);
      WaitingAddsNothing(w, task, call, accepted, key);
      AddsNothingKeepsGuarded(w, Continue(w, task, call, accepted, key), task, before);
    }
  }

  lemma StepKeepsGuarded(w: World, event: Event, before: set<VaultId>)
    requires Guarded(w, before)
    ensures Guarded(Step(w, event), before)
  {
    match event
    case Resume(task, call, accepted, key) =>
      if task in w.tasks {
        ContinueKeepsGuarded(w, task, call, accepted, key, before);
      }
    case DeleteVault(_) => ChangesOneKeepsGuarded(w, Step(w, event), 0, event.id, before);
    case _ => StartKeepsGuarded(w, event, before);
  }

  /**
   * Over any interleaving a vault that is in permanent storage was there before, or its code was accepted,
   * or its creation skipped the verification, or it was created from a seedphrase together with chains.
   */
  lemma {:induction false} StoredOnlyIf(
      stored: map<VaultId, nat>, active: Option<VaultId>, disk: set<VaultId>, events: seq<Event>)
    ensures var w := Run(Booted(stored, active, disk), events);
            Guarded(w, stored.Keys) && w.s.stored.Keys <= stored.Keys + w.accepted + w.skipped + w.seeded
    decreases |events|
  {
    if events != [] {
      StoredOnlyIf(stored, active, disk, events[..|events| - 1]);
      StepKeepsGuarded(Run(Booted(stored, active, disk), events[..|events| - 1]), events[|events| - 1], stored.Keys);
    }
  }

  /**
   * Without any code a creation from a seedphrase stores a vault that is not stored yet exactly when it sets
   * chains. For a vault that is stored already it then ends in a conflict and changes nothing that is kept.
   */
  lemma SeedingStoresUnverifiedIff(w: World, task: nat, id: VaultId, setsChains: bool, accepted: bool, key: StorageKey)
    requires task !in w.tasks
    ensures var w' := Step(Step(w, StartSeed(task, id, setsChains)), Resume(task, Fine, accepted, key));
            && w'.accepted == w.accepted && task in w'.tasks
            && (id in w'.s.stored <==> setsChains || id in w.s.stored)
            && (w'.s.stored != w.s.stored <==> setsChains && id !in w.s.stored)
            && (w'.tasks[task] == FailedEnd <==> setsChains && id in w.s.stored)
            && (w'.tasks[task] == FailedEnd ==> w'.s.memory == w.s.memory && w'.s.disk == w.s.disk)
            && (w'.tasks[task] != FailedEnd ==>
                  w'.tasks[task] == Ended && id in w'.s.memory && w'.s.memory[id] == |w.s.instances|)
  {
    var started := Step(w, StartSeed(task, id, setsChains));
    assert setsChains ==> started.tasks[task] == Saving(id, |w.s.instances|, Seeding);
    assert CanSave(started.s, |w.s.instances|) <==> id !in w.s.stored;
  }

  /** What an undisturbed and successful verification of the object h leaves. */
  function Completed(s: State, id: VaultId, h: nat): State
    requires CanSave(s, h)
  {
    var saved := Saved(s, h);
    saved.(active := Some(id), memory := saved.memory - {id}, disk := saved.disk - {id})
  }

  function GoesOn(w: World, task: nat): World {
    Step(w, Resume(task, Fine, true, VaultKey("")))
  }

  /** A task that nothing comes between finds what `verifyVault` finds, in memory or else on disk. */
  lemma UndisturbedLookup(w: World, task: nat, id: VaultId)
    requires task !in w.tasks
    ensures var asked := Asked(w, task, id);
            var (s, h) := Found(w.s, id, true);
            asked.s == s && asked.tasks == w.tasks[task := if h.Some? then AskServer(id, h.value) else FailedEnd]
  {
    if id !in w.s.memory {
      assert Step(w, StartVerify(task, id)).tasks[task] == ReadPending(id);
    }
  }

  /** Started, and through its lookup. */
  function Asked(w: World, task: nat, id: VaultId): World {
    var started := Step(w, StartVerify(task, id));
    if id in w.s.memory then started else GoesOn(started, task)
  }

  lemma RefusalsEnd(asked: World, task: nat, id: VaultId, h: nat, key: StorageKey)
    requires task in asked.tasks && asked.tasks[task] == AskServer(id, h)
    ensures var rejected, saving := Step(asked, Resume(task, Fine, false, key)), GoesOn(asked, task);
            && task in rejected.tasks && rejected.tasks[task] == FailedEnd && rejected.s == asked.s
            && saving.s == asked.s
            && (!CanSave(asked.s, h) ==>
                  GoesOn(saving, task).tasks == asked.tasks[task := FailedEnd] && GoesOn(saving, task).s == asked.s)
  {
    assert GoesOn(asked, task).tasks[task] == Saving(id, h, Verifying);
  }

  lemma AcceptanceCompletes(asked: World, task: nat, id: VaultId, h: nat)
    requires task in asked.tasks && asked.tasks[task] == AskServer(id, h) && CanSave(asked.s, h)
    ensures var done := GoesOn(GoesOn(GoesOn(GoesOn(asked, task), task), task), task);
            done.tasks == asked.tasks[task := VerifiedEnd(id)] && done.s == Completed(asked.s, id, h)
  {
    var saving := GoesOn(asked, task);
    assert saving.tasks[task] == Saving(id, h, Verifying) && saving.s == asked.s;
    var activating := GoesOn(saving, task);
    assert activating.tasks[task] == SetActive(id, Verifying);
    var removing := GoesOn(activating, task);
    assert removing.tasks[task] == RemovePending(id);
  }

  /**
   * Then it does what `verifyVault` does: a rejected code ends it without a change, an accepted one completes
   * it if the vault can be saved and otherwise ends it without a change.
   */
  lemma UndisturbedVerification(w: World, task: nat, id: VaultId, key: StorageKey)
    requires task !in w.tasks && Found(w.s, id, true).1.Some?
    ensures var (s, h) := Found(w.s, id, true);
            var asked := Asked(w, task, id);
            var rejected, saving := Step(asked, Resume(task, Fine, false, key)), GoesOn(asked, task);
            var done := GoesOn(GoesOn(GoesOn(saving, task), task), task);
            && task in rejected.tasks && rejected.tasks[task] == FailedEnd && rejected.s == s && saving.s == s
            && (!CanSave(s, h.value) ==>
                  GoesOn(saving, task).tasks == w.tasks[task := FailedEnd] && GoesOn(saving, task).s == s)
            && (CanSave(s, h.value) ==>
                  done.tasks == w.tasks[task := VerifiedEnd(id)] && done.s == Completed(s, id, h.value))
  {
    UndisturbedLookup(w, task, id);
    var (s, h) := Found(w.s, id, true);
    var asked := Asked(w, task, id);
    assert asked.tasks[task := FailedEnd] == w.tasks[task := FailedEnd];
    assert asked.tasks[task := VerifiedEnd(id)] == w.tasks[task := VerifiedEnd(id)];
    RefusalsEnd(asked, task, id, h.value, key);
    if CanSave(s, h.value) {
      AcceptanceCompletes(asked, task, id, h.value);
    }
  }

  /** A creation that nothing comes between leaves what `createFastVault` leaves. */
  lemma UndisturbedCreation(w: World, task: nat, id: VaultId, skip: bool, persist: bool)
    requires task !in w.tasks && id !in w.created
    ensures var started := Step(w, StartCreate(task, id, skip, persist));
            var end := GoesOn(GoesOn(started, task), task);
            var isNew, s := id !in w.s.stored, w.s;
            && end.tasks == w.tasks[task := if skip && !isNew then FailedEnd else Ended]
            && end.s == (if skip && isNew then
                           State(s.stored[id := 1], Some(id), s.disk, s.memory, s.instances + [Instance(id, Some(1))])
                         else if skip then
                           State(s.stored, s.active, s.disk, s.memory, s.instances + [Instance(id, None)])
                         else
                           State(s.stored, s.active, s.disk + (if persist then {id} else {}),
                                 s.memory[id := |s.instances|], s.instances + [Instance(id, None)]))
  {
    var h := |w.s.instances|;
    var started := Step(w, StartCreate(task, id, skip, persist));
    if skip {
      assert started.tasks[task] == Saving(id, h, Skipping);
      assert CanSave(started.s, h) <==> id !in w.s.stored;
      var next := GoesOn(started, task);
      assert next.tasks == w.tasks[task := if id in w.s.stored then FailedEnd else SetActive(id, Skipping)];
    }
  }

  /** So does a creation from a seedphrase. */
  lemma UndisturbedSeeding(w: World, task: nat, id: VaultId, setsChains: bool)
    requires task !in w.tasks
    ensures var end := GoesOn(Step(w, StartSeed(task, id, setsChains)), task);
            var s, isNew := w.s, id !in w.s.stored;
            && end.tasks == w.tasks[task := if setsChains && !isNew then FailedEnd else Ended]
            && end.s.active == s.active && end.s.disk == s.disk
            && end.s.memory == (if setsChains && !isNew then s.memory else s.memory[id := |s.instances|])
            && end.s.stored == (if setsChains && isNew then s.stored[id := 1] else s.stored)
            && end.s.instances == s.instances + [Instance(id, if setsChains && isNew then Some(1) else None)]
  {
    var h := |w.s.instances|;
    var started := Step(w, StartSeed(task, id, setsChains));
    assert started.tasks[task] == if setsChains then Saving(id, h, Seeding) else Ended;
    assert CanSave(started.s, h) <==> id !in w.s.stored;
  }

  // ----- clearing everything -----

  /** The next call of a clear removes the named key from storage and from its list; empty lists are left behind. */
  lemma ClearGoesOn(w: World, task: nat, accepted: bool, key: StorageKey)
    requires task in w.tasks && w.tasks[task].RemoveKeys?
    ensures var RemoveKeys(vaults, pending) := w.tasks[task];
            var w' := Step(w, Resume(task, Fine, accepted, key));
            && task in w'.tasks && w'.s.memory == w.s.memory && w'.s.active == w.s.active
            && (vaults == {} && pending == {} ==> w'.tasks[task] == RemoveActive && w'.s == w.s)
            && (key.VaultKey? && key.id in vaults ==>
                  && w'.tasks[task] == RemoveKeys(vaults - {key.id}, pending)
                  && w'.s.stored == w.s.stored - {key.id} && w'.s.disk == w.s.disk)
            && (key.PendingKey? && key.id in pending ==>
                  && w'.tasks[task] == RemoveKeys(vaults, pending - {key.id})
                  && w'.s.disk == w.s.disk - {key.id} && w'.s.stored == w.s.stored)
  {
  }

  /** What a clear that listed `vaults` and `pending` in the state s has removed so far. */
  ghost predicate HasCleared(s: State, vaults: set<VaultId>, pending: set<VaultId>, phase: Phase, s': State) {
    && s'.instances == s.instances
    && match phase
       case RemoveKeys(v, p) =>
         && v <= vaults && p <= pending && s'.active == s.active && s'.memory == s.memory
         && s'.stored == s.stored - (vaults - v) && s'.disk == s.disk - (pending - p)
       case RemoveActive =>
         && s'.active == s.active && s'.memory == s.memory
         && s'.stored == s.stored - vaults && s'.disk == s.disk - pending
       case Ended =>
         s' == State(s.stored - vaults, None, s.disk - pending, map[], s.instances)
       case _ => false
  }

  lemma ContinueClears(s: State, vaults: set<VaultId>, pending: set<VaultId>, w: World, task: nat, event: Event)
    requires task in w.tasks && HasCleared(s, vaults, pending, w.tasks[task], w.s)
    requires event.Resume? && event.task == task && event.call.Fine?
    ensures task in Step(w, event).tasks
    ensures HasCleared(s, vaults, pending, Step(w, event).tasks[task], Step(w, event).s)
  {
    var phase := w.tasks[task];
    if phase.RemoveKeys? {
      var v, p, key := phase.vaults, phase.pending, event.key;
      if v == {} && p == {} {
        assert vaults - {} == vaults && pending - {} == pending;
      } else if key.VaultKey? && key.id in v {
        assert vaults - (v - {key.id}) == (vaults - v) + {key.id};
        assert s.stored - ((vaults - v) + {key.id}) == s.stored - (vaults - v) - {key.id};
      } else if key.PendingKey? && key.id in p {
        assert pending - (p - {key.id}) == (pending - p) + {key.id};
        assert s.disk - ((pending - p) + {key.id}) == s.disk - (pending - p) - {key.id};
      }
    }
  }

  lemma {:induction false} ClearRunClears(
      s: State, vaults: set<VaultId>, pending: set<VaultId>, w: World, task: nat, events: seq<Event>)
    requires task in w.tasks && HasCleared(s, vaults, pending, w.tasks[task], w.s)
    requires forall i :: 0 <= i < |events| ==>
               events[i].Resume? && events[i].task == task && events[i].call.Fine?
    ensures task in Run(w, events).tasks
    ensures HasCleared(s, vaults, pending, Run(w, events).tasks[task], Run(w, events).s)
    decreases |events|
  {
    if events != [] {
      var init := events[..|events| - 1];
      ClearRunClears(s, vaults, pending, w, task, init);
      ContinueClears(s, vaults, pending, Run(w, init), task, events[|events| - 1]);
    }
  }

  /** A clear that nothing comes between, in whatever order it removes the keys, has ended only when all is gone. */
  lemma UndisturbedClear(w: World, task: nat, accepted: bool, key: StorageKey, events: seq<Event>)
    requires task !in w.tasks
    requires forall i :: 0 <= i < |events| ==>
               events[i].Resume? && events[i].task == task && events[i].call.Fine?
    ensures var listed := Step(Step(w, StartClear(task)), Resume(task, Fine, accepted, key));
            var end := Run(listed, events);
            && task in end.tasks && !end.tasks[task].FailedEnd?
            && (end.tasks[task].Ended? ==> end.s == State(map[], None, {}, map[], w.s.instances))
            && (end.tasks[task].RemoveKeys? ==>
                  end.s.stored.Keys == end.tasks[task].vaults && end.s.disk == end.tasks[task].pending)
  {
    var listed := Step(Step(w, StartClear(task)), Resume(task, Fine, accepted, key));
    var vaults, pending := w.s.stored.Keys, w.s.disk;
    assert listed.tasks[task] == RemoveKeys(vaults, pending) && listed.s == w.s;
    assert vaults - vaults == {} && pending - pending == {};
    assert w.s.stored - {} == w.s.stored && w.s.disk - {} == w.s.disk;
    ClearRunClears(w.s, vaults, pending, listed, task, events);
    assert w.s.stored - vaults == map[] && w.s.disk - pending == {};
    var end := Run(listed, events);
    if end.tasks[task].RemoveKeys? {
      var v, p := end.tasks[task].vaults, end.tasks[task].pending;
      assert (w.s.stored - (vaults - v)).Keys == v;
      assert w.s.disk - (pending - p) == p;
    }
  }

  // ----- a verified vault is pending nowhere, and stays stored -----

  /** The task will still add the vault to a pending place. */
  predicate Creating(phase: Phase, id: VaultId) {
    phase == WritePending(id) || (phase.Saving? && phase.id == id && phase.purpose.Seeding?)
  }

  /** A verification that has found its pending vault. */
  predicate PastLookup(phase: Phase, id: VaultId) {
    || (phase.AskServer? && phase.id == id)
    || (phase.Saving? && phase.id == id && phase.purpose.Verifying?)
    || phase == SetActive(id, Verifying)
    || phase == RemovePending(id)
    || phase == VerifiedEnd(id)
  }

  ghost predicate TaskIsClean(w: World, t: nat, id: VaultId)
    requires t in w.tasks
  {
    var phase := w.tasks[t];
    && (Creating(phase, id) || PastLookup(phase, id) ==> id in w.created)
    && (Creating(phase, id) ==> forall u :: u in w.tasks ==> !PastLookup(w.tasks[u], id))
    && (Creating(phase, id) && phase.Saving? ==> forall u :: u in w.tasks ==> w.tasks[u] != ReadPending(id))
    && (phase == WritePending(id) ==>
          id !in w.s.disk && forall u :: u in w.tasks && u != t ==> w.tasks[u] != WritePending(id))
    && (phase == RemovePending(id) || phase == VerifiedEnd(id) ==> id !in w.s.memory)
    && (phase == VerifiedEnd(id) ==> id !in w.s.disk)
  }

  ghost predicate Clean(w: World, id: VaultId) {
    && (id in w.s.memory || id in w.s.disk ==> id in w.created)
    && forall t :: t in w.tasks ==> TaskIsClean(w, t, id)
  }

  /**
   * The caller keeps creating and verifying a vault apart: no verification starts while a creation of it is
   * under way, and no creation from its seedphrase starts beside or after a verification of it.
   */
  predicate KeptApart(w: World, event: Event, id: VaultId) {
    && (event.StartVerify? && event.id == id ==> forall t :: t in w.tasks ==> !Creating(w.tasks[t], id))
    && (event.StartSeed? && event.id == id ==>
          forall t :: t in w.tasks ==> w.tasks[t] != ReadPending(id) && !PastLookup(w.tasks[t], id))
  }

  lemma CreationKeepsClean(w: World, event: Event, id: VaultId)
    requires Clean(w, id) && event.StartCreate?
    ensures Clean(Start(w, event), id)
  {
    var w' := Start(w, event);
    if w' != w {
      assert forall u :: u in w.tasks ==> TaskIsClean(w, u, id) && w'.tasks[u] == w.tasks[u];
      forall t | t in w'.tasks ensures TaskIsClean(w', t, id) {
      }
    }
  }

  lemma SeedingKeepsClean(w: World, event: Event, id: VaultId)
    requires Clean(w, id) && KeptApart(w, event, id) && event.StartSeed?
    ensures Clean(Start(w, event), id)
  {
    var w' := Start(w, event);
    if w' != w {
      assert forall u :: u in w.tasks ==> TaskIsClean(w, u, id) && w'.tasks[u] == w.tasks[u];
      forall t | t in w'.tasks ensures TaskIsClean(w', t, id) {
      }
    }
  }

  lemma OtherStartKeepsClean(w: World, event: Event, id: VaultId)
    requires Clean(w, id) && KeptApart(w, event, id)
    requires event.StartVerify? || event.StartDeletePending? || event.StartClear?
    ensures Clean(Start(w, event), id)
  {
    var w' := Start(w, event);
    if event.task !in w.tasks {
      forall t | t in w'.tasks ensures TaskIsClean(w', t, id) {
        if t != event.task {
          assert TaskIsClean(w, t, id);
        } else {
          assert forall u :: u in w.tasks ==> TaskIsClean(w, u, id);
        }
      }
    }
  }

  /** What going on may do to a vault: only its creation adds it, and only a hit on disk lets a lookup pass. */
  ghost predicate AddsOnlyByCreation(w: World, w': World, task: nat, id: VaultId)
    requires task in w.tasks && task in w'.tasks
  {
    var before, after := w.tasks[task], w'.tasks[task];
    && w'.created == w.created && w'.tasks.Keys == w.tasks.Keys
    && (forall t :: t in w.tasks && t != task ==> w'.tasks[t] == w.tasks[t])
    && (id in w'.s.memory && id !in w.s.memory ==> Creating(before, id) && before.Saving?)
    && (id in w'.s.disk && id !in w.s.disk ==> Creating(before, id) && !before.Saving?)
    && (Creating(after, id) ==> after == before && w'.s == w.s)
    && (after == ReadPending(id) ==> before == ReadPending(id))
    && (PastLookup(after, id) ==> PastLookup(before, id) || (before == ReadPending(id) && id in w.s.disk))
    && (after == RemovePending(id) ==> id !in w'.s.memory)
    && (after == VerifiedEnd(id) ==> id !in w'.s.disk && (before == RemovePending(id) || w' == w))
  }

  lemma ContinueAddsOnlyByCreation(w: World, task: nat, call: CallEnd, accepted: bool, key: StorageKey, id: VaultId)
    requires task in w.tasks
    requires w.tasks[task] == VerifiedEnd(id) ==> id !in w.s.disk
    requires w.tasks[task] == RemovePending(id) ==> id !in w.s.memory
    ensures AddsOnlyByCreation(w, Continue(w, task, call, accepted, key), task, id)
  {
    if w.tasks[task].Saving? {
      SavingAddsOnlyByCreation(w, task, call, accepted, key, id);
    } else if w.tasks[task].RemoveKeys? {
      ClearingAddsNoPending(w, task, call, accepted, key, id);
    } else if w.tasks[task].SetActive? || w.tasks[task].RemovePending? {
      CleanupAddsNoPending(w, task, call, accepted, key, id);
    }
  }

  lemma CleanupAddsNoPending(w: World, task: nat, call: CallEnd, accepted: bool, key: StorageKey, id: VaultId)
    requires task in w.tasks && (w.tasks[task].SetActive? || w.tasks[task].RemovePending?)
    requires w.tasks[task] == RemovePending(id) ==> id !in w.s.memory
    ensures AddsOnlyByCreation(w, Continue(w, task, call, accepted, key), task, id)
  {
  }

  lemma ClearingAddsNoPending(w: World, task: nat, call: CallEnd, accepted: bool, key: StorageKey, id: VaultId)
    requires task in w.tasks && w.tasks[task].RemoveKeys?
    ensures AddsOnlyByCreation(w, Continue(w, task, call, accepted, key), task, id)
  {
  }

  lemma SavingAddsOnlyByCreation(w: World, task: nat, call: CallEnd, accepted: bool, key: StorageKey, id: VaultId)
    requires task in w.tasks && w.tasks[task].Saving?
    ensures AddsOnlyByCreation(w, Continue(w, task, call, accepted, key), task, id)
  {
  }

  lemma AddsOnlyByCreationKeepsClean(w: World, w': World, task: nat, id: VaultId)
    requires Clean(w, id) && task in w.tasks && task in w'.tasks && AddsOnlyByCreation(w, w', task, id)
    ensures Clean(w', id)
  {
    assert TaskIsClean(w, task, id);
    forall t | t in w'.tasks ensures TaskIsClean(w', t, id) {
      assert TaskIsClean(w, t, id);
    }
  }

  lemma ContinueKeepsClean(w: World, task: nat, call: CallEnd, accepted: bool, key: StorageKey, id: VaultId)
    requires Clean(w, id) && task in w.tasks
    ensures Clean(Continue(w, task, call, accepted, key), id)
  {
    assert TaskIsClean(w, task, id);
    ContinueAddsOnlyByCreation(w, task, call, accepted, key, id);
    AddsOnlyByCreationKeepsClean(w, Continue(w, task, call, accepted, key), task, id);
  }

  lemma StepKeepsClean(w: World, event: Event, id: VaultId)
    requires Clean(w, id) && KeptApart(w, event, id)
    ensures Clean(Step(w, event), id)
  {
    match event
    case Resume(task, call, accepted, key) =>
      if task in w.tasks {
        ContinueKeepsClean(w, task, call, accepted, key, id);
      }
    case DeleteVault(_) =>
      assert forall t :: t in w.tasks ==> TaskIsClean(w, t, id);
      assert forall t :: t in w.tasks ==> TaskIsClean(Step(w, event), t, id);
    case StartCreate(_, _, _, _) => CreationKeepsClean(w, event, id);
    case StartSeed(_, _, _) => SeedingKeepsClean(w, event, id);
    case _ => OtherStartKeepsClean(w, event, id);
  }

  ghost predicate AlwaysKeptApart(w: World, events: seq<Event>, id: VaultId)
    decreases |events|
  {
    events == [] ||
    (var init := events[..|events| - 1];
     AlwaysKeptApart(w, init, id) && KeptApart(Run(w, init), events[|events| - 1], id))
  }

  /**
   * As long as its creation and its verification are kept apart, and whatever else runs, a verification that
   * ended well leaves its vault pending neither in memory nor on disk.
   */
  lemma {:induction false} VerifiedIsNotPending(
      stored: map<VaultId, nat>, active: Option<VaultId>, disk: set<VaultId>, events: seq<Event>, id: VaultId)
    requires AlwaysKeptApart(Booted(stored, active, disk), events, id)
    ensures var w := Run(Booted(stored, active, disk), events);
            && Clean(w, id)
            && ((exists t :: t in w.tasks && w.tasks[t] == VerifiedEnd(id)) ==> id !in w.s.memory && id !in w.s.disk)
    decreases |events|
  {
    if events != [] {
      VerifiedIsNotPending(stored, active, disk, events[..|events| - 1], id);
      StepKeepsClean(Run(Booted(stored, active, disk), events[..|events| - 1]), events[|events| - 1], id);
    }
    var w := Run(Booted(stored, active, disk), events);
    if t :| t in w.tasks && w.tasks[t] == VerifiedEnd(id) {
      assert TaskIsClean(w, t, id);
    }
  }

  /** The event ends or starts a creation of the vault that puts it into a pending place. */
  predicate PutsPending(w: World, event: Event, id: VaultId) {
    match event
    case StartCreate(task, i, skip, _) => i == id && task !in w.tasks && id !in w.created && !skip
    case StartSeed(task, i, setsChains) => i == id && task !in w.tasks && !setsChains
    case Resume(task, call, _, _) =>
      && task in w.tasks && !call.Threw? && Creating(w.tasks[task], id)
      && (w.tasks[task].Saving? ==> call.Fine? && CanSave(w.s, w.tasks[task].handle))
    case _ => false
  }

  /**
   * Exactly when one event makes a vault pending that is pending nowhere. If it was created before and no
   * creation of it is under way, only the start of one from its seedphrase without chains does.
   */
  lemma BecomesPendingIff(w: World, event: Event, id: VaultId)
    requires id !in w.s.memory && id !in w.s.disk
    ensures id in Step(w, event).s.memory || id in Step(w, event).s.disk <==> PutsPending(w, event, id)
    ensures PutsPending(w, event, id) && id in w.created && (forall t :: t in w.tasks ==> !Creating(w.tasks[t], id)) ==>
              event.StartSeed? && event.id == id && !event.setsChains
  {
    if event.Resume? && event.task in w.tasks {
      BecomesPendingByContinue(w, event, id);
    }
  }

  lemma BecomesPendingByContinue(w: World, event: Event, id: VaultId)
    requires id !in w.s.memory && id !in w.s.disk && event.Resume? && event.task in w.tasks
    ensures id in Step(w, event).s.memory || id in Step(w, event).s.disk <==> PutsPending(w, event, id)
  {
    if w.tasks[event.task].RemoveKeys? {
      RemovalAddsNothing(w, event, id);
    } else if w.tasks[event.task].Saving? {
      BecomesPendingBySaving(w, event, id);
    }
  }

  lemma RemovalAddsNothing(w: World, event: Event, id: VaultId)
    requires event.Resume? && event.task in w.tasks && w.tasks[event.task].RemoveKeys?
    ensures Step(w, event).s.memory == w.s.memory && Step(w, event).s.disk <= w.s.disk
  {
  }

  lemma BecomesPendingBySaving(w: World, event: Event, id: VaultId)
    requires id !in w.s.memory && id !in w.s.disk && event.Resume? && event.task in w.tasks
    requires w.tasks[event.task].Saving?
    ensures id in Step(w, event).s.memory || id in Step(w, event).s.disk <==> PutsPending(w, event, id)
  {
  }

  /** A verified vault is pending again once its seedphrase is used again. */
  lemma SeededAgainIsPendingAgain(id: VaultId)
    ensures var start := Step(Booted(map[], None, {}), StartSeed(0, id, false));
            var asked := Asked(start, 1, id);
            var verified := GoesOn(GoesOn(GoesOn(GoesOn(asked, 1), 1), 1), 1);
            var again := Step(verified, StartSeed(2, id, false));
            && 1 in verified.tasks && verified.tasks[1] == VerifiedEnd(id)
            && id !in verified.s.memory && id !in verified.s.disk
            && 1 in again.tasks && again.tasks[1] == VerifiedEnd(id) && id in again.s.memory
  {
    var start := Step(Booted(map[], None, {}), StartSeed(0, id, false));
    assert start.s == State(map[], None, {}, map[id := 0], [Instance(id, None)]) && start.tasks == map[0 := Ended];
    assert Found(start.s, id, true) == (start.s, Some(0)) && CanSave(start.s, 0);
    UndisturbedVerification(start, 1, id, VaultKey(id));
    var verified := GoesOn(GoesOn(GoesOn(GoesOn(Asked(start, 1, id), 1), 1), 1), 1);
    assert verified.tasks == map[0 := Ended, 1 := VerifiedEnd(id)] && verified.s == Completed(start.s, id, 0);
    SeedingMakesPending(verified, 2, id);
  }

  lemma SeedingMakesPending(w: World, task: nat, id: VaultId)
    requires task !in w.tasks
    ensures var again := Step(w, StartSeed(task, id, false));
            id in again.s.memory && forall t :: t in w.tasks ==> t in again.tasks && again.tasks[t] == w.tasks[t]
  {
  }

  /** The task has saved the vault it verifies. */
  predicate HasSaved(phase: Phase, id: VaultId) {
    phase == SetActive(id, Verifying) || phase == RemovePending(id) || phase == VerifiedEnd(id)
  }

  ghost predicate SavedIsStored(w: World) {
    forall t, id :: t in w.tasks && HasSaved(w.tasks[t], id) ==> id in w.s.stored
  }

  lemma ContinueKeepsSavedIsStored(w: World, task: nat, call: CallEnd, accepted: bool, key: StorageKey)
    requires SavedIsStored(w) && task in w.tasks && PhaseMatches(w, w.tasks[task]) && !w.tasks[task].RemoveKeys?
    ensures SavedIsStored(Continue(w, task, call, accepted, key))
  {
    var w', phase := Continue(w, task, call, accepted, key), w.tasks[task];
    assert w.s.stored.Keys <= w'.s.stored.Keys;
    assert forall t :: t in w.tasks && t != task ==> w'.tasks[t] == w.tasks[t];
    forall id | HasSaved(w'.tasks[task], id) ensures id in w'.s.stored {
      assert HasSaved(phase, id) || (phase.Saving? && phase.id == id);
    }
  }

  lemma StepKeepsSavedIsStored(w: World, event: Event)
    requires SavedIsStored(w) && (forall t :: t in w.tasks ==> PhaseMatches(w, w.tasks[t]))
    requires !event.DeleteVault? && NoClear(w)
    ensures SavedIsStored(Step(w, event))
  {
    if event.Resume? {
      if event.task in w.tasks {
        ContinueKeepsSavedIsStored(w, event.task, event.call, event.accepted, event.key);
      }
    } else {
      assert Start(w, event).s.stored == w.s.stored;
    }
  }

  predicate Deletes(event: Event) {
    event.StartClear? || event.DeleteVault?
  }

  /** No clearing of all vaults is under way. */
  predicate NoClear(w: World) {
    forall t :: t in w.tasks ==> !w.tasks[t].ListKeys? && !w.tasks[t].RemoveKeys?
  }

  lemma {:induction false} NobodyClears(w: World, events: seq<Event>)
    requires forall i :: 0 <= i < |events| ==> !Deletes(events[i])
    requires NoClear(w)
    ensures NoClear(Run(w, events))
    decreases |events|
  {
    if events != [] {
      NobodyClears(w, events[..|events| - 1]);
    }
  }

  /** As long as nothing is deleted or cleared, a vault is stored from the moment its verification saved it. */
  lemma {:induction false} VerifiedStaysStored(
      stored: map<VaultId, nat>, active: Option<VaultId>, disk: set<VaultId>, events: seq<Event>)
    requires forall i :: 0 <= i < |events| ==> !Deletes(events[i])
    ensures SavedIsStored(Run(Booted(stored, active, disk), events))
    decreases |events|
  {
    if events != [] {
      var init := events[..|events| - 1];
      VerifiedStaysStored(stored, active, disk, init);
      StoredOnlyIf(stored, active, disk, init);
      NobodyClears(Booted(stored, active, disk), init);
      StepKeepsSavedIsStored(Run(Booted(stored, active, disk), init), events[|events| - 1]);
    }
  }

  // ----- objects that cannot be saved any more -----

  /** The vault of the object is stored with a later revision than the object knows, or without it knowing any. */
  predicate Stuck(s: State, h: nat) {
    && h < |s.instances| && s.instances[h].id in s.stored
    && (s.instances[h].baseline.Some? ==> s.instances[h].baseline.value < s.stored[s.instances[h].id])
  }

  lemma StuckCannotSave(s: State, h: nat)
    requires Stuck(s, h)
    ensures !CanSave(s, h)
  {
  }

  /** No record is removed, and no object but those saved changes. */
  ghost predicate Keeps(s: State, s': State) {
    && |s.instances| <= |s'.instances|
    && (forall id :: id in s.stored ==> id in s'.stored && s.stored[id] <= s'.stored[id])
    && (forall h :: 0 <= h < |s.instances| && !CanSave(s, h) ==> s'.instances[h] == s.instances[h])
  }

  lemma ContinueKeeps(w: World, task: nat, call: CallEnd, accepted: bool, key: StorageKey)
    requires task in w.tasks && !w.tasks[task].RemoveKeys?
    ensures Keeps(w.s, Continue(w, task, call, accepted, key).s)
  {
  }

  lemma StepKeeps(w: World, event: Event)
    requires !Deletes(event) && NoClear(w)
    ensures Keeps(w.s, Step(w, event).s)
  {
    if event.Resume? {
      if event.task in w.tasks {
        ContinueKeeps(w, event.task, event.call, event.accepted, event.key);
      }
    }
  }

  /** While nothing is deleted or cleared, an object that is stuck stays stuck, whatever runs. */
  lemma {:induction false} StuckStays(w: World, events: seq<Event>, h: nat)
    requires Stuck(w.s, h) && NoClear(w) && forall i :: 0 <= i < |events| ==> !Deletes(events[i])
    ensures Stuck(Run(w, events).s, h) && !CanSave(Run(w, events).s, h)
    decreases |events|
  {
    if events != [] {
      var init := events[..|events| - 1];
      StuckStays(w, init, h);
      NobodyClears(w, init);
      StepKeeps(Run(w, init), events[|events| - 1]);
    }
  }

  /**
   * A stored vault that is created from its seedphrase again is pending, and while nothing is deleted or
   * cleared no code gets the new object saved.
   */
  lemma SeededAgainCannotBeSaved(w: World, task: nat, id: VaultId, events: seq<Event>)
    requires task !in w.tasks && id in w.s.stored
    requires NoClear(w) && forall i :: 0 <= i < |events| ==> !Deletes(events[i])
    ensures var w' := Step(w, StartSeed(task, id, false));
            && id in w'.s.memory && w'.s.memory[id] == |w.s.instances|
            && !CanSave(Run(w', events).s, |w.s.instances|)
  {
    StuckStays(Step(w, StartSeed(task, id, false)), events, |w.s.instances|);
  }

  /** One step makes an object without a baseline savable exactly if it removes the stored record of its vault. */
  lemma UnsavedBecomesSavableIff(w: World, event: Event, h: nat)
    requires h < |w.s.instances| && w.s.instances[h].baseline == None && !CanSave(w.s, h)
    ensures var id := w.s.instances[h].id;
            CanSave(Step(w, event).s, h) <==> id in w.s.stored && id !in Step(w, event).s.stored
  {
    if event.Resume? && event.task in w.tasks && !w.tasks[event.task].RemoveKeys? {
      ContinueKeeps(w, event.task, event.call, event.accepted, event.key);
    }
  }

  /** With the record deleted in between, an accepted code does save the vault. */
  lemma SeededAgainIsSavedAfterDeletion(w: World, task: nat, verify: nat, id: VaultId)
    requires task !in w.tasks && verify !in w.tasks && verify != task && id in w.s.stored
    ensures var deleted := Step(Step(w, StartSeed(task, id, false)), DeleteVault(id));
            var saved := GoesOn(GoesOn(Asked(deleted, verify, id), verify), verify);
            verify in saved.tasks && saved.tasks[verify] == SetActive(id, Verifying) && id in saved.s.stored
  {
    var deleted := Step(Step(w, StartSeed(task, id, false)), DeleteVault(id));
    UndisturbedLookup(deleted, verify, id);
    var h := |w.s.instances|;
    assert Found(deleted.s, id, true) == (deleted.s, Some(h));
    AcceptanceSavesIff(Asked(deleted, verify, id), verify, id, h);
  }

  /** A save that threw after its write strands its object: it can never be saved while nothing is deleted. */
  lemma LateThrowStrandsTheVault(w: World, task: nat, accepted: bool, key: StorageKey, events: seq<Event>)
    requires task in w.tasks && w.tasks[task].Saving? && CanSave(w.s, w.tasks[task].handle)
    requires NoClear(w) && forall i :: 0 <= i < |events| ==> !Deletes(events[i])
    ensures var h := w.tasks[task].handle;
            var thrown := Step(w, Resume(task, ThrewLate, accepted, key));
            && w.s.instances[h].id in thrown.s.stored && thrown.s.memory == w.s.memory
            && thrown.tasks[task] == FailedEnd && !CanSave(Run(thrown, events).s, h)
  {
    StuckStays(Step(w, Resume(task, ThrewLate, accepted, key)), events, w.tasks[task].handle);
  }

  // ----- a vault that is stored and not pending -----

  predicate IsPending(s: State, id: VaultId) {
    id in s.memory || id in s.disk
  }

  /** The vault is stored and pending nowhere, and no creation of it under way can make it so. */
  ghost predicate Settled(w: World, id: VaultId) {
    && id in w.s.stored && id in w.created && !IsPending(w.s, id)
    && forall t :: t in w.tasks && Creating(w.tasks[t], id) ==>
         w.tasks[t].Saving? && StuckFor(w.s, w.tasks[t].handle, id)
  }

  predicate StuckFor(s: State, h: nat, id: VaultId) {
    Stuck(s, h) && s.instances[h].id == id
  }

  /** Its seedphrase is used again, without chains. */
  predicate SeedsPending(w: World, event: Event, id: VaultId) {
    event.StartSeed? && event.id == id && !event.setsChains && event.task !in w.tasks
  }

  lemma StepKeepsSettled(w: World, event: Event, id: VaultId)
    requires Settled(w, id) && NoClear(w) && !Deletes(event) && !SeedsPending(w, event, id)
    ensures Settled(Step(w, event), id)
  {
    var w' := Step(w, event);
    StepKeeps(w, event);
    assert forall h :: StuckFor(w.s, h, id) ==> StuckFor(w'.s, h, id);
    SettledDoesNotBecomePending(w, event, id);
    forall t | t in w'.tasks && Creating(w'.tasks[t], id)
      ensures w'.tasks[t].Saving? && StuckFor(w'.s, w'.tasks[t].handle, id)
    {
      if t in w.tasks {
        CreatingWasCreating(w, event, id, t);
      }
    }
  }

  /** Only the start of a creation makes a task one that will still add the vault to a pending place. */
  lemma CreatingIsNotEntered(w: World, t: nat, call: CallEnd, accepted: bool, key: StorageKey, id: VaultId)
    requires t in w.tasks
    ensures var w' := Continue(w, t, call, accepted, key); t in w'.tasks && !Creating(w'.tasks[t], id)
  {
    if w.tasks[t].RemoveKeys? {
      ClearingAddsNoPending(w, t, call, accepted, key, id);
    }
  }

  lemma CreatingWasCreating(w: World, event: Event, id: VaultId, t: nat)
    requires t in w.tasks && t in Step(w, event).tasks && Creating(Step(w, event).tasks[t], id)
    ensures Step(w, event).tasks[t] == w.tasks[t]
  {
    if event.Resume? && event.task == t {
      CreatingIsNotEntered(w, t, event.call, event.accepted, event.key, id);
    }
  }

  lemma SettledDoesNotBecomePending(w: World, event: Event, id: VaultId)
    requires Settled(w, id) && !SeedsPending(w, event, id)
    ensures !IsPending(Step(w, event).s, id)
  {
    BecomesPendingIff(w, event, id);
    if event.Resume? && event.task in w.tasks && Creating(w.tasks[event.task], id) {
      StuckCannotSave(w.s, w.tasks[event.task].handle);
    }
  }

  lemma {:induction false} RunKeepsSettled(w: World, events: seq<Event>, id: VaultId)
    requires Settled(w, id) && NoClear(w)
    requires forall i :: 0 <= i < |events| ==> !Deletes(events[i]) && !SeedsPending(Run(w, events[..i]), events[i], id)
    ensures Settled(Run(w, events), id)
    decreases |events|
  {
    if events != [] {
      var n := |events| - 1;
      assert forall i :: 0 <= i <= n ==> events[..n][..i] == events[..i];
      RunKeepsSettled(w, events[..n], id);
      NobodyClears(w, events[..n]);
      StepKeepsSettled(Run(w, events[..n]), events[n], id);
    }
  }

  /**
   * While nothing is deleted or cleared, a settled vault is pending again at some moment of a run if and only
   * if its seedphrase is used again without chains in that run.
   */
  lemma PendingAgainIff(w: World, events: seq<Event>, id: VaultId)
    requires Settled(w, id) && NoClear(w) && forall i :: 0 <= i < |events| ==> !Deletes(events[i])
    ensures (exists n :: 0 <= n <= |events| && IsPending(Run(w, events[..n]).s, id))
            <==> (exists i :: 0 <= i < |events| && SeedsPending(Run(w, events[..i]), events[i], id))
  {
    if i :| 0 <= i < |events| && SeedsPending(Run(w, events[..i]), events[i], id) {
      assert events[..i + 1][..i] == events[..i];
      assert IsPending(Run(w, events[..i + 1]).s, id);
    } else {
      forall n | 0 <= n <= |events| ensures !IsPending(Run(w, events[..n]).s, id) {
        assert forall i :: 0 <= i < n ==> events[..n][..i] == events[..i];
        RunKeepsSettled(w, events[..n], id);
      }
    }
  }

  /** A verification that ended well leaves its vault settled, in runs without deletions that keep it apart. */
  lemma VerifiedIsSettled(
      stored: map<VaultId, nat>, active: Option<VaultId>, disk: set<VaultId>, events: seq<Event>, id: VaultId, t: nat)
    requires AlwaysKeptApart(Booted(stored, active, disk), events, id)
    requires forall i :: 0 <= i < |events| ==> !Deletes(events[i])
    requires var w := Run(Booted(stored, active, disk), events); t in w.tasks && w.tasks[t] == VerifiedEnd(id)
    ensures Settled(Run(Booted(stored, active, disk), events), id)
    ensures NoClear(Run(Booted(stored, active, disk), events))
  {
    VerifiedIsNotPending(stored, active, disk, events, id);
    VerifiedStaysStored(stored, active, disk, events);
    NobodyClears(Booted(stored, active, disk), events);
    var w := Run(Booted(stored, active, disk), events);
    assert TaskIsClean(w, t, id) && HasSaved(w.tasks[t], id);
    forall u | u in w.tasks ensures !Creating(w.tasks[u], id) {
      assert TaskIsClean(w, u, id) && PastLookup(w.tasks[t], id);
    }
  }

  // ----- what cancels a verification under way -----

  /** An accepted verification saves its vault exactly if the object can be saved. */
  lemma AcceptanceSavesIff(w: World, verify: nat, id: VaultId, h: nat)
    requires verify in w.tasks && w.tasks[verify] == AskServer(id, h)
    requires h < |w.s.instances| && w.s.instances[h].id == id
    ensures var saved := GoesOn(GoesOn(w, verify), verify);
            && verify in saved.tasks && (saved.tasks[verify] == SetActive(id, Verifying) <==> CanSave(w.s, h))
            && (CanSave(w.s, h) ==> saved.s == Saved(w.s, h))
            && (!CanSave(w.s, h) ==> saved.tasks[verify] == FailedEnd && saved.s == w.s)
  {
    var asked := GoesOn(w, verify);
    assert asked.tasks[verify] == Saving(id, h, Verifying) && asked.s == w.s;
  }

  /** A verification that finds nothing on disk ends. */
  lemma LookupFails(w: World, verify: nat, id: VaultId)
    requires verify in w.tasks && w.tasks[verify] == ReadPending(id) && id !in w.s.disk
    ensures var ended := GoesOn(GoesOn(w, verify), verify);
            verify in ended.tasks && ended.tasks[verify] == FailedEnd && ended.s == w.s
  {
    assert GoesOn(w, verify).tasks[verify] == FailedEnd;
  }

  /**
   * Deleting the pending vault cancels a verification exactly if that has not passed its lookup: an accepted
   * code then gets the vault saved if and only if its object can be saved, as without the deletion.
   */
  lemma DeletePendingCancelsIff(w: World, verify: nat, delete: nat, id: VaultId, accepted: bool, key: StorageKey)
    requires verify in w.tasks && delete in w.tasks && w.tasks[delete] == DeletePending(id)
    requires w.tasks[verify] == ReadPending(id) || (w.tasks[verify].AskServer? && w.tasks[verify].id == id)
    requires PhaseMatches(w, w.tasks[verify])
    ensures var deleted := Step(w, Resume(delete, Fine, accepted, key));
            var end := GoesOn(GoesOn(deleted, verify), verify);
            && !IsPending(deleted.s, id) && verify in end.tasks
            && (end.tasks[verify] == SetActive(id, Verifying) <==>
                  w.tasks[verify].AskServer? && CanSave(w.s, w.tasks[verify].handle))
            && (end.tasks[verify] == SetActive(id, Verifying) ==> id in end.s.stored)
            && (end.tasks[verify] != SetActive(id, Verifying) ==> end.tasks[verify] == FailedEnd && end.s == deleted.s)
  {
    var deleted := Step(w, Resume(delete, Fine, accepted, key));
    assert deleted.tasks[verify] == w.tasks[verify];
    if w.tasks[verify].AskServer? {
      AcceptanceSavesIff(deleted, verify, id, w.tasks[verify].handle);
    } else {
      LookupFails(deleted, verify, id);
    }
  }

  /**
   * Nor does clearing everything cancel one that has passed it: if the clear left neither a record nor a
   * pending record of the vault, an accepted code brings it back and makes it active exactly if the
   * verification has passed its lookup with an object that was never saved.
   */
  lemma ClearCancelsIff(w: World, verify: nat, clear: nat, id: VaultId, accepted: bool, key: StorageKey)
    requires verify in w.tasks && clear in w.tasks && w.tasks[clear] == RemoveActive
    requires w.tasks[verify] == ReadPending(id) || (w.tasks[verify].AskServer? && w.tasks[verify].id == id)
    requires PhaseMatches(w, w.tasks[verify]) && id !in w.s.stored && id !in w.s.disk
    ensures var cleared := Step(w, Resume(clear, Fine, accepted, key));
            var done := GoesOn(GoesOn(GoesOn(cleared, verify), verify), verify);
            && cleared.s.active == None && cleared.s.memory == map[]
            && (id in done.s.stored <==>
                  w.tasks[verify].AskServer? && w.s.instances[w.tasks[verify].handle].baseline == None)
            && (id in done.s.stored <==> done.s.active == Some(id))
  {
    var cleared := Step(w, Resume(clear, Fine, accepted, key));
    assert cleared.tasks[verify] == w.tasks[verify];
    if w.tasks[verify].AskServer? {
      AcceptanceSavesIff(cleared, verify, id, w.tasks[verify].handle);
    } else {
      LookupFails(cleared, verify, id);
    }
  }

  /**
   * A verification from the pending record on disk can save exactly if the vault is not stored yet: after a
   * crash between the save and the cleanup every later attempt from disk ends in a conflict.
   */
  lemma DiskVerificationSavesIff(s: State, id: VaultId)
    requires id in s.disk && id !in s.memory
    ensures var (s', h) := Found(s, id, true); h.Some? && (CanSave(s', h.value) <==> id !in s.stored)
  {
  }
}
