/**
 * The process-wide MPC engine of mpc-types: `configureMpc`, and `ensureMpcEngine` as two uninterrupted
 * steps around its dynamic import, so that any number of calls may be under way at once.
 */
module MpcRuntime {
  import opened Wrappers

  /** An engine object. The number stands for its identity, the flags for what `validateEngine` looks at. */
  datatype Engine = Engine(
    id: nat, tagged: bool, hasInitialize: bool, hasDkls: bool, hasSchnorr: bool, mldsaIsDkls: bool)

  predicate WellShaped(e: Engine) {
    e.hasInitialize && e.hasDkls && e.hasSchnorr && !e.mldsaIsDkls
  }

  /** The environment variables; all are absent where `process.env` cannot be read. */
  datatype Env = Env(strictSingleton: Option<string>, expoStrictSingleton: Option<string>, nodeEnv: Option<string>)

  function StrictSetting(env: Env): Option<string> {
    if env.strictSingleton.Some? then env.strictSingleton else env.expoStrictSingleton
  }

  /** `shouldThrowOnDuplicateMpcConfigure` */
  predicate ThrowsOnDuplicate(env: Env) {
    if StrictSetting(env) == Some("0") then false
    else if StrictSetting(env) == Some("1") then true
    else env.nodeEnv != Some("production")
  }

  /** `isExplicitStrictSingletonDuplicateMode` */
  predicate ExplicitStrict(env: Env) {
    StrictSetting(env) == Some("1")
  }

  datatype Reply = Returned | InvalidEngine | DuplicateEngine

  // ----- the registry -----

  class RuntimeStore {
    var mpcEngine: Option<Engine>

    constructor ()
      ensures mpcEngine == None
    {
      mpcEngine := None;
    }
  }

  /** What `configureMpc` leaves registered, for an engine registered before or none. */
  function Registered(env: Env, prev: Option<Engine>, e: Engine): Option<Engine> {
    if !WellShaped(e) then prev
    else if prev.Some? && prev.value.tagged && e.tagged then prev
    else if prev.Some? && ThrowsOnDuplicate(env) then prev
    else Some(e)
  }

  function ReplyTo(env: Env, prev: Option<Engine>, e: Engine): Reply {
    if !WellShaped(e) then InvalidEngine
    else if prev == None || prev.value == e then Returned
    else if prev.value.tagged && e.tagged then (if ExplicitStrict(env) then DuplicateEngine else Returned)
    else if ThrowsOnDuplicate(env) then DuplicateEngine
    else Returned
  }

  /** `globalThis`, which holds the one store under a registered symbol. */
  class Global {
    var store: RuntimeStore?

    ghost function Engine(): Option<Engine>
      reads this, store
    {
      if store == null then None else store.mpcEngine
    }

    /** `runtimeStore`: every copy of the module is given the same object. */
    method Store() returns (s: RuntimeStore)
      modifies this
      ensures s == store && (old(store) != null ==> s == old(store)) && (old(store) == null ==> fresh(s))
      ensures Engine() == old(Engine())
    {
      if store == null {
        store := new RuntimeStore();
      }
      s := store;
    }

    method ValidateEngine(e: Engine) returns (valid: bool)
      ensures valid == WellShaped(e)
    {
      if !e.hasInitialize {
        return false;
      }
      if !e.hasDkls {
        return false;
      }
      if !e.hasSchnorr {
        return false;
      }
      return !e.mldsaIsDkls;
    }

    method ConfigureMpc(env: Env, e: Engine) returns (reply: Reply)
      modifies this, store
      ensures Engine() == Registered(env, old(Engine()), e)
      ensures reply == ReplyTo(env, old(Engine()), e)
    {
      var valid := ValidateEngine(e);
      if !valid {
        return InvalidEngine;
      }
      var s := Store();
      var prev := s.mpcEngine;
      if prev == Some(e) {
        return Returned;
      }
      if prev.Some? && prev.value.tagged && e.tagged {
        if ExplicitStrict(env) {
          return DuplicateEngine;
        }
        return Returned;
      }
      if prev.Some? && ThrowsOnDuplicate(env) {
        return DuplicateEngine;
      }
      s.mpcEngine := Some(e);
      return Returned;
    }

    /** `ensureMpcEngine` up to its await: the engine, or nothing when the import has to be awaited. */
    method EnsureStart() returns (found: Option<Engine>)
      modifies this
      ensures found == old(Engine()) && Engine() == old(Engine())
    {
      var s := Store();
      found := s.mpcEngine;
    }

    /** The rest of `ensureMpcEngine`: the import failed, or its new engine is configured and the registry read. */
    method EnsureResume(env: Env, imported: Option<Engine>) returns (result: Task)
      requires imported.Some? ==> WellShaped(imported.value)
      modifies this, store
      ensures result == Resumed(env, old(Engine()), imported)
      ensures Engine() == AfterResume(env, old(Engine()), imported)
    {
      if imported == None {
        return Failed(false);
      }
      var reply := ConfigureMpc(env, imported.value);
      if reply != Returned {
        return Failed(true);
      }
      var s := Store();
      result := Got(s.mpcEngine.value);
    }
  }

  // ----- runs -----

  /** A call of `ensureMpcEngine`; a failure says whether the import had succeeded. */
  datatype Task = Importing | Got(engine: Engine) | Failed(imported: bool)

  datatype World = World(engine: Option<Engine>, tasks: map<nat, Task>)

  datatype Event =
    | Configure(engine: Engine)
    | EnsureStart(task: nat)
    | EnsureResume(task: nat, imported: Option<Engine>)

  function Resumed(env: Env, prev: Option<Engine>, imported: Option<Engine>): Task
    requires imported.Some? ==> WellShaped(imported.value)
  {
    if imported == None then Failed(false)
    else if ReplyTo(env, prev, imported.value) != Returned then Failed(true)
    else Got(Registered(env, prev, imported.value).value)
  }

  function AfterResume(env: Env, prev: Option<Engine>, imported: Option<Engine>): Option<Engine> {
    if imported == None then prev else Registered(env, prev, imported.value)
  }

  /** Each call starts once and resumes once, with an engine that is new, tagged and well shaped. */
  predicate Enabled(w: World, event: Event) {
    match event
    case Configure(_) => true
    case EnsureStart(task) => task !in w.tasks
    case EnsureResume(task, imported) =>
      && task in w.tasks && w.tasks[task] == Importing
      && (imported.Some? ==> imported.value.tagged && WellShaped(imported.value) && imported != w.engine)
  }

  /** An event that cannot happen changes nothing. */
  function Step(env: Env, w: World, event: Event): World {
    if !Enabled(w, event) then w
    else
      match event
      case Configure(e) => w.(engine := Registered(env, w.engine, e))
      case EnsureStart(task) =>
        w.(tasks := w.tasks[task := if w.engine.Some? then Got(w.engine.value) else Importing])
      case EnsureResume(task, imported) =>
        World(AfterResume(env, w.engine, imported), w.tasks[task := Resumed(env, w.engine, imported)])
  }

  function Run(env: Env, events: seq<Event>): World
    decreases |events|
  {
    if events == [] then World(None, map[])
    else Step(env, Run(env, events[..|events| - 1]), events[|events| - 1])
  }

  /** The well-shaped engines that a run hands to `configureMpc`, in order. */
  function Offered(env: Env, events: seq<Event>): seq<Engine>
    decreases |events|
  {
    if events == [] then []
    else
      var init, last := events[..|events| - 1], events[|events| - 1];
      Offered(env, init) + OfferedBy(Run(env, init), last)
  }

  function OfferedBy(w: World, event: Event): seq<Engine> {
    if !Enabled(w, event) then []
    else
      match event
      case Configure(e) => if WellShaped(e) then [e] else []
      case EnsureStart(_) => []
      case EnsureResume(_, imported) => if imported.Some? then [imported.value] else []
  }

  /**
   * Where overwriting is permitted, the engine left is the first of the tagged ones at the end of the
   * offers, or simply the last offer when that one is not tagged.
   */
  predicate IsWinner(offers: seq<Engine>, j: nat) {
    && j < |offers|
    && (offers[j].tagged || j == |offers| - 1)
    && (forall k :: j < k < |offers| ==> offers[k].tagged)
    && (j == 0 || !offers[j].tagged || !offers[j - 1].tagged)
  }

  /** What is left registered after some offers, the last of which comes to what the others left. */
  function Left(env: Env, offers: seq<Engine>): Option<Engine>
    decreases |offers|
  {
    if offers == [] then None else Registered(env, Left(env, offers[..|offers| - 1]), offers[|offers| - 1])
  }

  lemma StepRegistersTheOffer(env: Env, w: World, event: Event)
    ensures var added := OfferedBy(w, event);
            && |added| <= 1 && (added != [] ==> WellShaped(added[0]))
            && Step(env, w, event).engine == if added == [] then w.engine else Registered(env, w.engine, added[0])
  {
  }

  lemma LeftNext(env: Env, offers: seq<Engine>, added: seq<Engine>)
    requires |added| <= 1
    ensures Left(env, offers + added) ==
            if added == [] then Left(env, offers) else Registered(env, Left(env, offers), added[0])
  {
    if added == [] {
      assert offers + added == offers;
    } else {
      assert (offers + added)[..|offers|] == offers;
    }
  }

  lemma {:induction false} RunKeepsWhatIsLeft(env: Env, events: seq<Event>)
    ensures Run(env, events).engine == Left(env, Offered(env, events))
    decreases |events|
  {
    if events != [] {
      var init, last := events[..|events| - 1], events[|events| - 1];
      RunKeepsWhatIsLeft(env, init);
      StepRegistersTheOffer(env, Run(env, init), last);
      LeftNext(env, Offered(env, init), OfferedBy(Run(env, init), last));
    }
  }

  lemma {:induction false} OffersAreWellShaped(env: Env, events: seq<Event>)
    ensures forall e :: e in Offered(env, events) ==> WellShaped(e)
    decreases |events|
  {
    if events != [] {
      var init := events[..|events| - 1];
      OffersAreWellShaped(env, init);
      StepRegistersTheOffer(env, Run(env, init), events[|events| - 1]);
    }
  }

  lemma {:induction false} FirstIsLeft(env: Env, offers: seq<Engine>)
    requires ThrowsOnDuplicate(env) && offers != [] && forall e :: e in offers ==> WellShaped(e)
    ensures Left(env, offers) == Some(offers[0])
    decreases |offers|
  {
    var init := offers[..|offers| - 1];
    assert forall e :: e in init ==> e in offers;
    if init != [] {
      FirstIsLeft(env, init);
    }
  }

  lemma WinnerStays(offers: seq<Engine>, j: nat)
    requires IsWinner(offers, j) && j < |offers| - 1
    ensures IsWinner(offers[..|offers| - 1], j) && offers[j].tagged && offers[|offers| - 1].tagged
  {
  }

  lemma {:induction false} WinnerIsLeft(env: Env, offers: seq<Engine>, j: nat)
    requires !ThrowsOnDuplicate(env) && IsWinner(offers, j) && forall e :: e in offers ==> WellShaped(e)
    ensures Left(env, offers) == Some(offers[j])
    decreases |offers|
  {
    var n := |offers| - 1;
    var init := offers[..n];
    assert forall e :: e in init ==> e in offers;
    assert offers[n] in offers;
    if j < n {
      WinnerStays(offers, j);
      WinnerIsLeft(env, init, j);
    } else if n > 0 && offers[n].tagged {
      var i := WinnerOf(init);
      WinnerIsLeft(env, init, i);
      assert i == n - 1 && !init[i].tagged;
    }
  }

  /** The registry after any run, from the list of offers alone. */
  lemma RunKeepsTheWinner(env: Env, events: seq<Event>, j: nat)
    ensures Offered(env, events) == [] ==> Run(env, events).engine == None
    ensures ThrowsOnDuplicate(env) && Offered(env, events) != [] ==>
              Run(env, events).engine == Some(Offered(env, events)[0])
    ensures !ThrowsOnDuplicate(env) && IsWinner(Offered(env, events), j) ==>
              Run(env, events).engine == Some(Offered(env, events)[j])
  {
    var offers := Offered(env, events);
    RunKeepsWhatIsLeft(env, events);
    OffersAreWellShaped(env, events);
    if ThrowsOnDuplicate(env) && offers != [] {
      FirstIsLeft(env, offers);
    }
    if !ThrowsOnDuplicate(env) && IsWinner(offers, j) {
      WinnerIsLeft(env, offers, j);
    }
  }

  function WinnerOf(offers: seq<Engine>): (j: nat)
    requires offers != []
    ensures IsWinner(offers, j)
    decreases |offers|
  {
    var n := |offers| - 1;
    if !offers[n].tagged || n == 0 || !offers[n - 1].tagged then n
    else WinnerOf(offers[..n])
  }

  /** An engine is replaced only where duplicates are permitted and one of the two is not tagged. */
  lemma ReplacedExactlyWhen(env: Env, w: World, event: Event)
    requires w.engine.Some?
    ensures Step(env, w, event).engine.Some?
    ensures Step(env, w, event).engine != w.engine <==>
            exists e :: e in OfferedBy(w, event) && e != w.engine.value && !ThrowsOnDuplicate(env)
                        && !(e.tagged && w.engine.value.tagged)
  {
    var after := Step(env, w, event).engine;
    if after != w.engine {
      assert after.value in OfferedBy(w, event);
    }
  }

  ghost predicate AllAgree(w: World) {
    forall t :: t in w.tasks && w.tasks[t].Got? ==> w.engine == Some(w.tasks[t].engine)
  }

  lemma StepKeepsAgreement(env: Env, w: World, event: Event)
    requires AllAgree(w) && (ThrowsOnDuplicate(env) || (w.engine.Some? ==> w.engine.value.tagged))
    requires ThrowsOnDuplicate(env) || (event.Configure? ==> event.engine.tagged)
    ensures AllAgree(Step(env, w, event))
  {
    var w' := Step(env, w, event);
    if w.engine.Some? {
      assert w'.engine == w.engine;
    } else {
      assert forall t :: t in w.tasks ==> !w.tasks[t].Got?;
    }
  }

  /** No two calls are given different engines, as long as nothing may overwrite or everything is tagged. */
  lemma {:induction false} AllEnsuresAgree(env: Env, events: seq<Event>)
    requires ThrowsOnDuplicate(env) || OnlyTagged(events)
    ensures var w := Run(env, events);
            forall t :: t in w.tasks && w.tasks[t].Got? ==> w.engine == Some(w.tasks[t].engine)
    ensures OnlyTagged(events) && Run(env, events).engine.Some? ==> Run(env, events).engine.value.tagged
    decreases |events|
  {
    if events != [] {
      var init := events[..|events| - 1];
      assert OnlyTagged(events) ==> OnlyTagged(init);
      AllEnsuresAgree(env, init);
      assert AllAgree(Run(env, init));
      StepKeepsAgreement(env, Run(env, init), events[|events| - 1]);
    }
  }

  predicate OnlyTagged(events: seq<Event>) {
    forall i :: 0 <= i < |events| && events[i].Configure? ==> events[i].engine.tagged
  }

  /** With tagged engines only and no explicit strictness, a call fails only when its import does. */
  lemma {:induction false} OnlyImportsFail(env: Env, events: seq<Event>)
    requires OnlyTagged(events) && !ExplicitStrict(env)
    ensures var w := Run(env, events); forall t :: t in w.tasks ==> w.tasks[t] != Failed(true)
    decreases |events|
  {
    if events != [] {
      var init := events[..|events| - 1];
      OnlyImportsFail(env, init);
      AllEnsuresAgree(env, init);
    }
  }

  /** The first of the two strictness variables that is set has this value. */
  predicate Says(env: Env, value: string) {
    env.strictSingleton == Some(value) || (env.strictSingleton == None && env.expoStrictSingleton == Some(value))
  }

  /** What `configureMpc` does and answers, from the shape of the engine, the tags and the environment variables. */
  lemma ConfigureDecision(env: Env, w: World, e: Engine)
    ensures var reply, after := ReplyTo(env, w.engine, e), Step(env, w, Configure(e));
            var complete := e.hasInitialize && e.hasDkls && e.hasSchnorr && !e.mldsaIsDkls;
            var overwrites := Says(env, "0") || (!Says(env, "1") && env.nodeEnv == Some("production"));
            && after.tasks == w.tasks && (reply == InvalidEngine <==> !complete)
            && (!complete ==> after == w)
            && (complete && w.engine == None ==> after.engine == Some(e) && reply == Returned)
            && (complete && w.engine == Some(e) ==> after == w && reply == Returned)
            && (complete && w.engine.Some? && w.engine.value != e ==>
                  if w.engine.value.tagged && e.tagged then
                    && after == w
                    && (reply == Returned <==> !Says(env, "1")) && (reply == DuplicateEngine <==> Says(env, "1"))
                  else
                    && after.engine == (if overwrites then Some(e) else w.engine)
                    && (reply == Returned <==> overwrites) && (reply == DuplicateEngine <==> !overwrites))
  {
  }

  /**
   * A call that has to import finds an engine registered meanwhile. It throws, overwrites that engine or
   * returns it, and which of the three depends on the two conditions only.
   */
  lemma MeanwhileRegistered(env: Env, w: World, task: nat, imported: Engine)
    requires Enabled(w, EnsureResume(task, Some(imported))) && w.engine.Some?
    ensures var after := Step(env, w, EnsureResume(task, Some(imported)));
            var kept := w.engine.value;
            && (after.tasks[task] == Failed(true) <==>
                (if kept.tagged then ExplicitStrict(env) else ThrowsOnDuplicate(env)))
            && (after.tasks[task] == Got(kept) <==> kept.tagged && !ExplicitStrict(env))
            && (after.tasks[task] == Got(imported) <==> !kept.tagged && !ThrowsOnDuplicate(env))
            && (after.engine == w.engine <==> kept.tagged || ThrowsOnDuplicate(env))
  {
  }

  /** Two calls at once under explicit strictness: the second throws although an engine is there. */
  lemma SecondEnsureThrowsWhenStrict(env: Env, first: Engine, second: Engine)
    requires ExplicitStrict(env) && first != second
    requires first.tagged && WellShaped(first) && second.tagged && WellShaped(second)
    ensures var w := Run(env, [EnsureStart(0), EnsureStart(1),
                               EnsureResume(0, Some(first)), EnsureResume(1, Some(second))]);
            w.tasks.Keys == {0, 1} && w.engine == Some(first) && w.tasks[0] == Got(first) && w.tasks[1] == Failed(true)
  {
    var events := [EnsureStart(0), EnsureStart(1), EnsureResume(0, Some(first)), EnsureResume(1, Some(second))];
    assert events[..3] == [EnsureStart(0), EnsureStart(1), EnsureResume(0, Some(first))];
    assert events[..3][..2] == [EnsureStart(0), EnsureStart(1)];
    assert [EnsureStart(0), EnsureStart(1)][..1] == [EnsureStart(0)];
    assert [EnsureStart(0)][..0] == [];
    var w0 := Run(env, [EnsureStart(0)]);
    assert w0 == World(None, map[0 := Importing]);
    var w1 := Run(env, events[..3][..2]);
    assert w1 == World(None, map[0 := Importing, 1 := Importing]);
    assert Run(env, events[..3]) == World(Some(first), map[0 := Got(first), 1 := Importing]);
  }
}
