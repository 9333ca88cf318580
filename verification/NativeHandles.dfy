/**
 * Native keyshare handles of mpc-native: those that the caller owns, and the temporary ones that an engine
 * call makes for a keyshare that is not a native one of its kind and has to free again.
 */
module NativeHandles {
  import opened Wrappers

  datatype Kind = Dkls | Schnorr

  type Handle = (Kind, nat)

  /** A keyshare object: one of this package, whose bytes may have been read already, or any other implementation. */
  datatype Keyshare = Native(handle: nat, kind: Kind, cached: bool) | Foreign

  /** What went wrong, or the session handle or setup bytes. */
  datatype Outcome = Returned | Threw

  /** The operations that take a keyshare. */
  datatype Operation = Refresh | Sign | ReshareSetup | ReshareSession

  /** Outcomes of `toBytes`, of the import of the bytes, and of the operation itself. */
  datatype Script = Script(readFails: bool, importFails: bool, imported: nat, callFails: bool)

  // ----- calls over the bridge -----

  /** A call over the bridge: the bytes of a handle are read, bytes become a handle, a handle is used, or freed. */
  datatype Action =
    | Read(h: Handle)
    | Import(h: Handle)
    | Invoke(given: Option<Handle>, throws: bool)
    | Free(h: Handle)

  /** The live handles after a call; None when a live handle is made again or a dead one is freed. */
  function Perform(live: set<Handle>, a: Action): Option<set<Handle>> {
    match a
    case Import(h) => if h in live then None else Some(live + {h})
    case Read(_) => Some(live)
    case Invoke(_, _) => Some(live)
    case Free(h) => if h in live then Some(live - {h}) else None
  }

  function PerformAll(live: set<Handle>, actions: seq<Action>): Option<set<Handle>>
    decreases |actions|
  {
    if actions == [] then Some(live)
    else
      var before := PerformAll(live, actions[..|actions| - 1]);
      if before == None then None else Perform(before.value, actions[|actions| - 1])
  }

  lemma PerformNext(live: set<Handle>, actions: seq<Action>, a: Action)
    requires PerformAll(live, actions).Some?
    ensures PerformAll(live, actions + [a]) == Perform(PerformAll(live, actions).value, a)
  {
    assert (actions + [a])[..|actions|] == actions;
  }

  predicate NeedsTemporary(kind: Kind, ks: Option<Keyshare>) {
    ks.Some? && !(ks.value.Native? && ks.value.kind == kind)
  }

  /** The reshare operations free the temporary handle in a `finally`. */
  predicate FreesOnThrow(op: Operation) {
    op.ReshareSetup? || op.ReshareSession?
  }

  /** A temporary handle is made. */
  predicate Imports(kind: Kind, ks: Option<Keyshare>, script: Script) {
    NeedsTemporary(kind, ks) && !script.readFails && !script.importFails
  }

  /** Refresh and sign lose a temporary handle when the native call throws after it was made. */
  predicate Leaks(kind: Kind, op: Operation, ks: Option<Keyshare>, script: Script) {
    Imports(kind, ks, script) && script.callFails && !FreesOnThrow(op)
  }

  /** `toBytes` of a native keyshare asks the native side unless it has the bytes already. */
  function Reads(ks: Keyshare): seq<Action> {
    if ks.Native? && !ks.cached then [Read((ks.kind, ks.handle))] else []
  }

  /** The bridge calls of one engine call, in order. */
  function Actions(kind: Kind, op: Operation, ks: Option<Keyshare>, script: Script): seq<Action> {
    var temporary := (kind, script.imported);
    if ks == None then [Invoke(None, script.callFails)]
    else if !NeedsTemporary(kind, ks) then [Invoke(Some((kind, ks.value.handle)), script.callFails)]
    else if !Imports(kind, ks, script) then Reads(ks.value)
    else Reads(ks.value) + UsesOf(temporary, op, script)
  }

  /** What is done with a temporary handle. */
  function UsesOf(temporary: Handle, op: Operation, script: Script): seq<Action> {
    [Import(temporary), Invoke(Some(temporary), script.callFails)]
    + if script.callFails && !FreesOnThrow(op) then [] else [Free(temporary)]
  }

  /** The native side never hands out a handle that is live. */
  predicate MakesNew(live: set<Handle>, kind: Kind, ks: Option<Keyshare>, script: Script) {
    Imports(kind, ks, script) ==> (kind, script.imported) !in live
  }

  class Bridge {
    ghost var live: set<Handle>
    ghost var trace: seq<Action>

    constructor ()
      ensures live == {} && trace == []
    {
      live, trace := {}, [];
    }

    /** `dklsKeyshareFromBytes` and its Schnorr twin. */
    method FromBytes(kind: Kind, script: Script) returns (handle: nat, threw: bool)
      requires !script.importFails ==> (kind, script.imported) !in live
      modifies this
      ensures threw == script.importFails && handle == script.imported
      ensures trace == old(trace) + (if threw then [] else [Import((kind, handle))])
      ensures live == if threw then old(live) else old(live) + {(kind, handle)}
    {
      handle, threw := script.imported, script.importFails;
      if !threw {
        live, trace := live + {(kind, handle)}, trace + [Import((kind, handle))];
      }
    }

    /** `dklsKeyshareToBytes` and its Schnorr twin. */
    method ToBytes(kind: Kind, handle: nat, script: Script) returns (threw: bool)
      modifies this`trace
      ensures threw == script.readFails && trace == old(trace) + [Read((kind, handle))]
    {
      trace := trace + [Read((kind, handle))];
      return script.readFails;
    }

    /** `createSignSession`, `dklsQcSetup` and the like. */
    method Invoke(given: Option<Handle>, script: Script) returns (outcome: Outcome)
      modifies this`trace
      ensures outcome == if script.callFails then Threw else Returned
      ensures trace == old(trace) + [Action.Invoke(given, script.callFails)]
    {
      trace := trace + [Action.Invoke(given, script.callFails)];
      return if script.callFails then Threw else Returned;
    }

    /** `freeKeyshare` and its Schnorr twin: only a live handle may be freed. */
    method Free(kind: Kind, handle: nat)
      requires (kind, handle) in live
      modifies this
      ensures live == old(live) - {(kind, handle)} && trace == old(trace) + [Action.Free((kind, handle))]
    {
      live, trace := live - {(kind, handle)}, trace + [Action.Free((kind, handle))];
    }
  }

  /** `NativeDklsEngine` or `NativeSchnorrEngine`. */
  class Engine {
    const kind: Kind
    const bridge: Bridge

    constructor (kind: Kind, bridge: Bridge)
      ensures this.kind == kind && this.bridge == bridge
    {
      this.kind, this.bridge := kind, bridge;
    }

    /** `_ensureNativeKeyshare` */
    method EnsureNative(ks: Keyshare, script: Script) returns (handle: nat, threw: bool)
      requires MakesNew(bridge.live, kind, Some(ks), script)
      modifies bridge
      ensures !NeedsTemporary(kind, Some(ks)) ==>
                !threw && handle == ks.handle && bridge.live == old(bridge.live) && bridge.trace == old(bridge.trace)
      ensures NeedsTemporary(kind, Some(ks)) ==>
                && threw == !Imports(kind, Some(ks), script) && (threw || handle == script.imported)
                && bridge.live == (if threw then old(bridge.live) else old(bridge.live) + {(kind, handle)})
                && bridge.trace
                   == old(bridge.trace) + Reads(ks) + (if threw then [] else [Import((kind, handle))])
    {
      if ks.Native? && ks.kind == kind {
        return ks.handle, false;
      }
      threw := script.readFails;
      if ks.Native? && !ks.cached {
        threw := bridge.ToBytes(ks.kind, ks.handle, script);
      }
      if threw {
        return 0, true;
      }
      handle, threw := bridge.FromBytes(kind, script);
    }

    /** `createRefreshSession` and `createSignSession`: the free follows the native call. */
    method RefreshOrSign(op: Operation, ks: Keyshare, script: Script) returns (outcome: Outcome)
      requires (op.Refresh? || op.Sign?) && MakesNew(bridge.live, kind, Some(ks), script)
      modifies bridge
      ensures bridge.trace == old(bridge.trace) + Actions(kind, op, Some(ks), script)
      ensures PerformAll(old(bridge.live), Actions(kind, op, Some(ks), script)) == Some(bridge.live)
      ensures outcome == Returned ==> bridge.live == old(bridge.live)
      ensures outcome == Returned <==>
                !script.callFails
                && (ks.Foreign? || ks.kind != kind ==> !script.readFails && !script.importFails)
    {
      CallKeepsTheRest(bridge.live, kind, op, Some(ks), script);
      var handle, threw := EnsureNative(ks, script);
      if threw {
        return Threw;
      }
      var isTemporary := !(ks.Native? && ks.kind == kind);
      outcome := bridge.Invoke(Some((kind, handle)), script);
      if outcome == Returned && isTemporary {
        bridge.Free(kind, handle);
      }
    }

    /** `reshareSetup` and `createReshareSession`: the free is in a `finally`; the session takes no keyshare, too. */
    method Reshare(op: Operation, ks: Option<Keyshare>, script: Script) returns (outcome: Outcome)
      requires (op.ReshareSetup? || op.ReshareSession?) && (op.ReshareSetup? ==> ks.Some?)
      requires MakesNew(bridge.live, kind, ks, script)
      modifies bridge
      ensures bridge.trace == old(bridge.trace) + Actions(kind, op, ks, script)
      ensures PerformAll(old(bridge.live), Actions(kind, op, ks, script)) == Some(bridge.live)
      ensures bridge.live == old(bridge.live)
      ensures outcome == Returned <==>
                !script.callFails
                && (ks.Some? && (ks.value.Foreign? || ks.value.kind != kind) ==>
                      !script.readFails && !script.importFails)
    {
      CallKeepsTheRest(bridge.live, kind, op, ks, script);
      var temporary: Option<nat> := None;
      var given: Option<Handle> := None;
      if ks.Some? {
        var handle, threw := EnsureNative(ks.value, script);
        if threw {
          return Threw;
        }
        given := Some((kind, handle));
        if !(ks.value.Native? && ks.value.kind == kind) {
          temporary := Some(handle);
        }
      }
      outcome := bridge.Invoke(given, script);
      if temporary.Some? {
        bridge.Free(kind, temporary.value);
      }
    }
  }

  lemma PerformOne(live: set<Handle>, a: Action)
    ensures PerformAll(live, [a]) == Perform(live, a)
  {
    PerformNext(live, [], a);
    assert [] + [a] == [a];
  }

  lemma {:induction false} PerformAppends(live: set<Handle>, first: seq<Action>, second: seq<Action>)
    requires PerformAll(live, first).Some?
    ensures PerformAll(live, first + second) == PerformAll(PerformAll(live, first).value, second)
    decreases |second|
  {
    if second == [] {
      assert first + second == first;
    } else {
      var n := |second| - 1;
      PerformAppends(live, first, second[..n]);
      assert (first + second)[..|first + second| - 1] == first + second[..n];
    }
  }

  /** The first calls on a temporary handle, and all of them. */
  lemma UsesPerform(live: set<Handle>, temporary: Handle, op: Operation, script: Script)
    requires temporary !in live
    ensures var uses := UsesOf(temporary, op, script);
            && PerformAll(live, uses[..1]) == Some(live + {temporary})
            && PerformAll(live, uses)
               == Some(if script.callFails && !FreesOnThrow(op) then live + {temporary} else live)
  {
    var uses := UsesOf(temporary, op, script);
    PerformOne(live, Import(temporary));
    assert uses[..1] == [Import(temporary)];
    PerformNext(live, uses[..1], uses[1]);
    assert uses[..1] + [uses[1]] == uses[..2];
    if |uses| == 3 {
      PerformNext(live, uses[..2], uses[2]);
      assert uses[..2] + [uses[2]] == uses;
      assert live + {temporary} - {temporary} == live;
    } else {
      assert uses[..2] == uses;
    }
  }

  lemma ReadsPerform(live: set<Handle>, ks: Keyshare)
    ensures PerformAll(live, Reads(ks)) == Some(live)
  {
    if Reads(ks) != [] {
      PerformOne(live, Reads(ks)[0]);
    }
  }

  /** One engine call performs without an error, and leaves the live handles as they were but for a leak. */
  lemma CallKeepsTheRest(live: set<Handle>, kind: Kind, op: Operation, ks: Option<Keyshare>, script: Script)
    requires MakesNew(live, kind, ks, script)
    ensures PerformAll(live, Actions(kind, op, ks, script)) ==
            Some(if Leaks(kind, op, ks, script) then live + {(kind, script.imported)} else live)
  {
    if !NeedsTemporary(kind, ks) {
      PerformOne(live, Actions(kind, op, ks, script)[0]);
    } else {
      ReadsPerform(live, ks.value);
      if Imports(kind, ks, script) {
        UsesPerform(live, (kind, script.imported), op, script);
        PerformAppends(live, Reads(ks.value), UsesOf((kind, script.imported), op, script));
      }
    }
  }

  /** Whatever an engine call frees it made itself, so it was not live before; and it frees that only once. */
  lemma CallFreesItsOwnTemporary(
      live: set<Handle>, kind: Kind, op: Operation, ks: Option<Keyshare>, script: Script, i: nat)
    requires MakesNew(live, kind, ks, script)
    requires i < |Actions(kind, op, ks, script)| && Actions(kind, op, ks, script)[i].Free?
    ensures var actions := Actions(kind, op, ks, script);
            && actions[i].h !in live
            && (exists j :: 0 <= j < i && actions[j] == Import(actions[i].h))
            && (forall j :: 0 <= j < |actions| && j != i ==> !actions[j].Free?)
  {
    assert Actions(kind, op, ks, script)[|Reads(ks.value)|] == Import((kind, script.imported));
  }

  // ----- which handles the native calls are given -----

  /** The handle that a call over the bridge reads or works with. */
  function Given(a: Action): Option<Handle> {
    match a
    case Read(h) => Some(h)
    case Invoke(h, _) => h
    case Import(_) => None
    case Free(h) => Some(h)
  }

  /** Every call over the bridge is given a handle that is live at that moment, or none. */
  ghost predicate GivenLive(live: set<Handle>, actions: seq<Action>) {
    forall i :: 0 <= i < |actions| && Given(actions[i]).Some? ==>
      PerformAll(live, actions[..i]).Some? && Given(actions[i]).value in PerformAll(live, actions[..i]).value
  }

  /** The engine works with the handle of the keyshare itself, or has to read its bytes. */
  predicate NeedsHandle(kind: Kind, ks: Option<Keyshare>) {
    ks.Some? && ks.value.Native? && (ks.value.kind == kind || !ks.value.cached)
  }

  lemma UsesAreLive(live: set<Handle>, temporary: Handle, op: Operation, script: Script)
    requires temporary !in live
    ensures GivenLive(live, UsesOf(temporary, op, script))
  {
    var uses := UsesOf(temporary, op, script);
    UsesPerform(live, temporary, op, script);
    PerformNext(live, uses[..1], uses[1]);
    assert uses[..1] + [uses[1]] == uses[..2];
  }

  lemma GivenLiveAppends(live: set<Handle>, first: seq<Action>, second: seq<Action>)
    requires PerformAll(live, first).Some?
    ensures GivenLive(live, first + second) <==>
            GivenLive(live, first) && GivenLive(PerformAll(live, first).value, second)
  {
    var all, mid := first + second, PerformAll(live, first).value;
    forall i | 0 <= i < |first| ensures all[i] == first[i] && all[..i] == first[..i] {
    }
    forall j | 0 <= j < |second|
      ensures all[|first| + j] == second[j]
      ensures PerformAll(live, all[..|first| + j]) == PerformAll(mid, second[..j])
    {
      assert all[..|first| + j] == first + second[..j];
      PerformAppends(live, first, second[..j]);
    }
    if GivenLive(live, all) {
      forall j | 0 <= j < |second| && Given(second[j]).Some?
        ensures PerformAll(mid, second[..j]).Some? && Given(second[j]).value in PerformAll(mid, second[..j]).value
      {
        assert all[|first| + j] == second[j];
      }
    }
  }

  /**
   * Every native call inside an engine call is given a live handle, if and only if the handle of the keyshare is
   * live wherever the engine needs it.
   */
  lemma CallIsGivenLiveIff(live: set<Handle>, kind: Kind, op: Operation, ks: Option<Keyshare>, script: Script)
    requires MakesNew(live, kind, ks, script)
    ensures GivenLive(live, Actions(kind, op, ks, script)) <==>
            NeedsHandle(kind, ks) ==> (ks.value.kind, ks.value.handle) in live
  {
    var actions := Actions(kind, op, ks, script);
    if actions != [] {
      assert actions[..0] == [];
      if NeedsHandle(kind, ks) {
        assert Given(actions[0]) == Some((ks.value.kind, ks.value.handle));
      }
    }
    if NeedsTemporary(kind, ks) {
      ReadsPerform(live, ks.value);
      if Imports(kind, ks, script) {
        UsesAreLive(live, (kind, script.imported), op, script);
        GivenLiveAppends(live, Reads(ks.value), UsesOf((kind, script.imported), op, script));
      }
    }
  }

  // ----- runs on both engines, together with what the caller does -----

  /** The live handles, the ones the caller owns, and all frees so far; `failed` after a wrong bridge call. */
  datatype World = World(live: set<Handle>, owned: set<Handle>, trace: seq<Action>, failed: bool)

  /** The caller gets a keyshare (`keyshareFromBytes`, or a session's `finish`), frees one, or calls an engine. */
  datatype Event =
    | Own(h: Handle)
    | Disown(h: Handle)
    | Call(kind: Kind, op: Operation, ks: Option<Keyshare>, script: Script)

  /** New handles are not live, and the caller frees what it owns. */
  predicate Enabled(w: World, event: Event) {
    match event
    case Own(h) => h !in w.live
    case Disown(h) => h in w.owned
    case Call(kind, op, ks, script) => MakesNew(w.live, kind, ks, script)
  }

  function BridgeCalls(event: Event): seq<Action> {
    match event
    case Own(h) => [Import(h)]
    case Disown(h) => [Free(h)]
    case Call(kind, op, ks, script) => Actions(kind, op, ks, script)
  }

  function Owned(owned: set<Handle>, event: Event): set<Handle> {
    match event
    case Own(h) => owned + {h}
    case Disown(h) => owned - {h}
    case Call(_, _, _, _) => owned
  }

  function Step(w: World, event: Event): World {
    if w.failed || !Enabled(w, event) then w
    else
      var performed := PerformAll(w.live, BridgeCalls(event));
      if performed == None then w.(failed := true)
      else World(performed.value, Owned(w.owned, event), w.trace + BridgeCalls(event), false)
  }

  function Run(w: World, events: seq<Event>): World
    decreases |events|
  {
    if events == [] then w else Step(Run(w, events[..|events| - 1]), events[|events| - 1])
  }

  function Start(): World {
    World({}, {}, [], false)
  }

  predicate LeakingCall(w: World, event: Event) {
    event.Call? && Enabled(w, event) && Leaks(event.kind, event.op, event.ks, event.script)
  }

  /** The temporaries that the calls of a run lost. */
  ghost function Leaked(events: seq<Event>): set<Handle>
    decreases |events|
  {
    if events == [] then {}
    else
      var init, last := events[..|events| - 1], events[|events| - 1];
      Leaked(init) + if LeakingCall(Run(Start(), init), last) then {(last.kind, last.script.imported)} else {}
  }

  lemma StepConserves(w: World, event: Event, leaked: set<Handle>)
    requires !w.failed && w.live == w.owned + leaked && w.owned !! leaked
    ensures var w' := Step(w, event);
            var leaked' := leaked + if LeakingCall(w, event) then {(event.kind, event.script.imported)} else {};
            !w'.failed && w'.live == w'.owned + leaked' && w'.owned !! leaked'
  {
    if Enabled(w, event) {
      match event
      case Own(h) => PerformOne(w.live, Import(h));
      case Disown(h) => PerformOne(w.live, Free(h));
      case Call(kind, op, ks, script) => CallKeepsTheRest(w.live, kind, op, ks, script);
    }
  }

  /**
   * Over any run on both engines no bridge call is wrong, every handle the caller owns is live, and the only
   * other live ones are the temporaries that throwing refresh and sign calls lost.
   */
  lemma {:induction false} RunConservesHandles(events: seq<Event>)
    ensures var w := Run(Start(), events);
            !w.failed && w.live == w.owned + Leaked(events) && w.owned !! Leaked(events)
    decreases |events|
  {
    if events != [] {
      RunConservesHandles(events[..|events| - 1]);
      StepConserves(Run(Start(), events[..|events| - 1]), events[|events| - 1], Leaked(events[..|events| - 1]));
    }
  }

  /** An engine call in a run frees nothing that the caller owns, and makes nothing of the caller's its own. */
  lemma CallsLeaveOwnedHandlesAlone(events: seq<Event>, call: Event, h: Handle)
    requires call.Call? && h in Run(Start(), events).owned
    ensures var w' := Step(Run(Start(), events), call);
            && h in w'.owned && h in w'.live
            && (Enabled(Run(Start(), events), call) ==>
                  Free(h) !in BridgeCalls(call) && Import(h) !in BridgeCalls(call))
  {
    var w := Run(Start(), events);
    RunConservesHandles(events);
    StepConserves(w, call, Leaked(events));
    if Enabled(w, call) && Free(h) in BridgeCalls(call) {
      var i :| 0 <= i < |BridgeCalls(call)| && BridgeCalls(call)[i] == Free(h);
      CallFreesItsOwnTemporary(w.live, call.kind, call.op, call.ks, call.script, i);
    }
  }

  /**
   * In a run every native call of the engines is given a live handle, if and only if each keyshare whose handle an
   * engine needs is one that the caller then owns, or has the number of a temporary that was lost.
   */
  lemma CallsAreGivenLiveIff(events: seq<Event>)
    requires forall i :: 0 <= i < |events| ==> Enabled(Run(Start(), events[..i]), events[i])
    ensures (forall i :: 0 <= i < |events| && events[i].Call? ==>
               GivenLive(Run(Start(), events[..i]).live, BridgeCalls(events[i])))
            <==>
            (forall i :: 0 <= i < |events| && events[i].Call? && NeedsHandle(events[i].kind, events[i].ks) ==>
               (events[i].ks.value.kind, events[i].ks.value.handle)
                 in Run(Start(), events[..i]).owned + Leaked(events[..i]))
  {
    forall i | 0 <= i < |events| && events[i].Call?
      ensures GivenLive(Run(Start(), events[..i]).live, BridgeCalls(events[i])) <==>
              (NeedsHandle(events[i].kind, events[i].ks) ==>
                 (events[i].ks.value.kind, events[i].ks.value.handle)
                   in Run(Start(), events[..i]).owned + Leaked(events[..i]))
    {
      RunConservesHandles(events[..i]);
      var w, e := Run(Start(), events[..i]), events[i];
      assert Enabled(w, e);
      CallIsGivenLiveIff(w.live, e.kind, e.op, e.ks, e.script);
    }
  }

  /** A refresh or sign that made a handle for a keyshare that is not its engine's own, and then threw. */
  predicate ThrewWithTemporary(event: Event) {
    && event.Call? && (event.op.Refresh? || event.op.Sign?)
    && event.ks.Some? && (event.ks.value.Foreign? || event.ks.value.kind != event.kind)
    && !event.script.readFails && !event.script.importFails && event.script.callFails
  }

  /** At the end exactly the caller's handles are live, if and only if no refresh or sign threw with a temporary. */
  lemma RunIsCleanIff(events: seq<Event>)
    ensures Run(Start(), events).live == Run(Start(), events).owned
            <==> forall i :: 0 <= i < |events| && Enabled(Run(Start(), events[..i]), events[i]) ==>
                   !ThrewWithTemporary(events[i])
  {
    RunConservesHandles(events);
    LeakedIsEmptyIff(events);
    forall i | 0 <= i < |events|
      ensures LeakingCall(Run(Start(), events[..i]), events[i]) <==>
              Enabled(Run(Start(), events[..i]), events[i]) && ThrewWithTemporary(events[i])
    {
    }
  }

  lemma {:induction false} LeakedIsEmptyIff(events: seq<Event>)
    ensures Leaked(events) == {} <==>
            forall i :: 0 <= i < |events| ==> !LeakingCall(Run(Start(), events[..i]), events[i])
    decreases |events|
  {
    if events != [] {
      var n := |events| - 1;
      var init := events[..n];
      LeakedIsEmptyIff(init);
      forall i | 0 <= i < n
        ensures LeakingCall(Run(Start(), init[..i]), init[i]) == LeakingCall(Run(Start(), events[..i]), events[i])
      {
        assert init[..i] == events[..i];
      }
    }
  }

  predicate Returns(event: Event) {
    event.Call? ==>
      !event.script.callFails && (NeedsTemporary(event.kind, event.ks) ==> Imports(event.kind, event.ks, event.script))
  }

  /** In particular when all refresh and sign calls return normally, whatever the reshare calls do. */
  lemma ReturningRunIsClean(events: seq<Event>)
    requires forall i :: 0 <= i < |events| && events[i].Call? ==>
               Returns(events[i]) || events[i].op.ReshareSetup? || events[i].op.ReshareSession?
    ensures Run(Start(), events).live == Run(Start(), events).owned
  {
    RunIsCleanIff(events);
  }
}
