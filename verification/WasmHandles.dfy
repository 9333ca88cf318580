/**
 * Who owns the raw pointers of vs_wasm.js: wrapper objects that hold one pointer each, `free`,
 * constructors and methods that consume a wrapper, and the finalization registries.
 */
module WasmHandles {
  import opened Wrappers

  datatype Kind =
    | Keyshare | PreSign | Message | FinalSession | HardDerivationSession | KeyExportSession
    | KeyImportInitiator | KeyImportSession | KeygenSession | QcSession | SignSession

  /** What the module told the native side about a pointer. */
  datatype NativeCall =
    | Made(ptr: nat, kind: Kind)
    | Freed(ptr: nat, kind: Kind)
    | Consumed(ptr: nat, kind: Kind)

  predicate Releases(c: NativeCall, ptr: nat) {
    !c.Made? && c.ptr == ptr
  }

  /**
   * The live native objects after the calls; None once a call releases a pointer that is not live
   * with that kind, or a live pointer is made again. Releasing zero does nothing.
   */
  function Replay(calls: seq<NativeCall>): Option<map<nat, Kind>>
    decreases |calls|
  {
    if calls == [] then Some(map[])
    else
      var before, c := Replay(calls[..|calls| - 1]), calls[|calls| - 1];
      if before.None? then None
      else if c.Made? then
        if c.ptr == 0 || c.ptr in before.value then None else Some(before.value[c.ptr := c.kind])
      else if c.ptr == 0 then before
      else if c.ptr in before.value && before.value[c.ptr] == c.kind then Some(before.value - {c.ptr})
      else None
  }

  lemma ReplayNext(calls: seq<NativeCall>, c: NativeCall)
    requires Replay(calls).Some?
    ensures var live := Replay(calls).value;
            Replay(calls + [c]) ==
            if c.Made? then (if c.ptr == 0 || c.ptr in live then None else Some(live[c.ptr := c.kind]))
            else if c.ptr == 0 then Some(live)
            else if c.ptr in live && live[c.ptr] == c.kind then Some(live - {c.ptr}) else None
  {
    assert (calls + [c])[..|calls|] == calls;
  }

  lemma ReleaseReplays(calls: seq<NativeCall>, live: map<nat, Kind>, c: NativeCall)
    requires Replay(calls) == Some(live) && 0 !in live && !c.Made?
    requires c.ptr != 0 ==> c.ptr in live && live[c.ptr] == c.kind
    ensures Replay(calls + [c]) == Some(live - {c.ptr})
  {
    ReplayNext(calls, c);
    assert c.ptr == 0 ==> live - {c.ptr} == live;
  }

  lemma {:induction false} ReplayPrefix(calls: seq<NativeCall>, n: nat)
    requires n <= |calls| && Replay(calls).Some?
    ensures Replay(calls[..n]).Some?
    decreases |calls|
  {
    if n < |calls| {
      var front := calls[..|calls| - 1];
      ReplayPrefix(front, n);
      assert front[..n] == calls[..n];
    } else {
      assert calls[..n] == calls;
    }
  }

  lemma {:induction false} NotMadeStaysDead(calls: seq<NativeCall>, n: nat, ptr: nat)
    requires n <= |calls| && Replay(calls).Some? && Replay(calls[..n]).Some?
    requires ptr !in Replay(calls[..n]).value
    requires forall k :: n <= k < |calls| ==> calls[k] != Made(ptr, calls[k].kind)
    ensures ptr !in Replay(calls).value
    decreases |calls|
  {
    if n < |calls| {
      var front := calls[..|calls| - 1];
      assert front[..n] == calls[..n];
      NotMadeStaysDead(front, n, ptr);
    } else {
      assert calls[..n] == calls;
    }
  }

  lemma DeadAfterRelease(calls: seq<NativeCall>, i: nat, ptr: nat)
    requires Replay(calls).Some? && ptr != 0 && i < |calls| && Releases(calls[i], ptr)
    ensures Replay(calls[..i + 1]).Some? && ptr !in Replay(calls[..i + 1]).value
  {
    ReplayPrefix(calls, i + 1);
    assert calls[..i + 1][..i] == calls[..i];
  }

  lemma LiveBeforeRelease(calls: seq<NativeCall>, j: nat, ptr: nat)
    requires Replay(calls).Some? && ptr != 0 && j < |calls| && Releases(calls[j], ptr)
    ensures Replay(calls[..j]).Some? && ptr in Replay(calls[..j]).value
  {
    ReplayPrefix(calls, j + 1);
    assert calls[..j + 1][..j] == calls[..j];
  }

  /** Between two releases of one pointer the native side has made it again. */
  lemma NoDoubleRelease(calls: seq<NativeCall>, i: nat, j: nat, ptr: nat)
    requires Replay(calls).Some? && ptr != 0
    requires i < j < |calls| && Releases(calls[i], ptr) && Releases(calls[j], ptr)
    ensures exists k :: i < k < j && calls[k] == Made(ptr, calls[k].kind)
  {
    DeadAfterRelease(calls, i, ptr);
    LiveBeforeRelease(calls, j, ptr);
    if forall k :: i + 1 <= k < j ==> calls[k] != Made(ptr, calls[k].kind) {
      assert calls[..j][..i + 1] == calls[..i + 1];
      NotMadeStaysDead(calls[..j], i + 1, ptr);
    }
  }

  /** Every release is of a pointer made before, as the same kind of object. */
  lemma ReleaseWasMade(calls: seq<NativeCall>, j: nat)
    requires Replay(calls).Some? && j < |calls| && !calls[j].Made? && calls[j].ptr != 0
    ensures exists i :: 0 <= i < j && calls[i] == Made(calls[j].ptr, calls[j].kind)
  {
    ReplayPrefix(calls, j + 1);
    assert calls[..j + 1][..j] == calls[..j];
    LiveWasMade(calls[..j], calls[j].ptr);
  }

  lemma {:induction false} LiveWasMade(calls: seq<NativeCall>, ptr: nat)
    requires Replay(calls).Some? && ptr in Replay(calls).value
    ensures exists i :: 0 <= i < |calls| && calls[i] == Made(ptr, Replay(calls).value[ptr])
    decreases |calls|
  {
    var n := |calls| - 1;
    if calls[n] != Made(ptr, Replay(calls).value[ptr]) {
      LiveWasMade(calls[..n], ptr);
      var i :| 0 <= i < n && calls[..n][i] == Made(ptr, Replay(calls).value[ptr]);
      assert calls[i] == calls[..n][i];
    }
  }

  /** An instance of one of the exported classes. */
  class Wrapper {
    const kind: Kind
    /** `__wbg_ptr` */
    var ptr: nat

    constructor (kind: Kind, ptr: nat)
      ensures this.kind == kind && this.ptr == ptr
    {
      this.kind, this.ptr := kind, ptr;
    }
  }

  class Module {
    /** `FinalizationRegistry` exists. */
    const hasRegistry: bool
    /** The registered wrappers, with the pointer their finalizer would free. */
    var registry: map<Wrapper, nat>
    /** The calls made so far. */
    ghost var calls: seq<NativeCall>
    /** The live native objects. */
    ghost var native: map<nat, Kind>
    /** The wrappers that were not collected yet. */
    ghost var wrappers: set<Wrapper>
    /** The wrapper that holds each pointer. */
    ghost var holder: map<nat, Wrapper>
    /** Pointers whose wrapper was collected without a registry. */
    ghost var leaked: set<nat>

    /**
     * Every live pointer is in `hand` or leaked, or held by exactly one wrapper of its kind; and the calls
     * so far never released a dead pointer.
     */
    ghost predicate Tracked(hand: set<nat>)
      reads this, wrappers
    {
      && Replay(calls) == Some(native)
      && 0 !in native && native.Keys == holder.Keys + hand + leaked
      && holder.Keys !! hand && holder.Keys !! leaked && hand !! leaked
      && (forall w :: w in wrappers && w.ptr != 0 ==> w.ptr in holder && holder[w.ptr] == w)
      && (forall p :: p in holder ==> holder[p] in wrappers && holder[p].ptr == p && holder[p].kind == native[p])
    }

    /** With a registry nothing leaks, and exactly the wrappers that hold a pointer are registered with it. */
    ghost predicate Registered()
      reads this, wrappers
    {
      && (hasRegistry ==> leaked == {})
      && (forall w :: w in registry ==> w in wrappers && registry[w] == w.ptr != 0)
      && (hasRegistry ==> forall w :: w in wrappers && w.ptr != 0 ==> w in registry)
      && (!hasRegistry ==> registry == map[])
    }

    ghost predicate Consistent(hand: set<nat>)
      reads this, wrappers
    {
      Tracked(hand) && Registered()
    }

    ghost predicate Valid()
      reads this, wrappers
    {
      Consistent({})
    }

    /** With a registry, a live native object belongs to exactly one wrapper, which will free it. */
    lemma LivePointerHasOneHolder(p: nat)
      requires Valid() && hasRegistry && p in native
      ensures exists w :: && w in wrappers && w.ptr == p && w.kind == native[p] && w in registry
                          && forall v :: v in wrappers && v.ptr == p ==> v == w
    {
      var w := holder[p];
      assert w in wrappers && w.ptr == p;
    }

    /** Whatever operations have run, a pointer that was released twice was made again in between. */
    lemma NeverReleasedTwice(i: nat, j: nat, ptr: nat)
      requires Valid() && ptr != 0
      requires i < j < |calls| && Releases(calls[i], ptr) && Releases(calls[j], ptr)
      ensures exists k :: i < k < j && calls[k] == Made(ptr, calls[k].kind)
    {
      NoDoubleRelease(calls, i, j, ptr);
    }

    /** And a pointer that was released is live only if it was made after that. */
    lemma ReleasedIsDead(i: nat, ptr: nat)
      requires Valid() && ptr != 0 && i < |calls| && Releases(calls[i], ptr)
      requires forall k :: i < k < |calls| ==> calls[k] != Made(ptr, calls[k].kind)
      ensures ptr !in native && forall w :: w in wrappers ==> w.ptr != ptr
    {
      DeadAfterRelease(calls, i, ptr);
      NotMadeStaysDead(calls, i + 1, ptr);
    }

    constructor (hasRegistry: bool)
      ensures Valid() && wrappers == {} && native == map[] && calls == []
    {
      this.hasRegistry := hasRegistry;
      registry, calls, native, wrappers, holder, leaked := map[], [], map[], {}, map[], {};
    }

    /** `__wrap`, or the end of a constructor, for a pointer the native side just made. */
    method Wrap(kind: Kind, ptr: nat) returns (w: Wrapper)
      requires Valid() && ptr != 0 && ptr !in native
      modifies this
      ensures Valid() && fresh(w) && w.kind == kind && w.ptr == ptr
      ensures wrappers == old(wrappers) + {w}
      ensures native == old(native)[ptr := kind] && calls == old(calls) + [Made(ptr, kind)]
    {
      w := new Wrapper(kind, ptr);
      Adopt(w);
      if hasRegistry {
        registry := registry[w := ptr];
      }
    }

    /** Everything but the registration of a wrapper for a new pointer. */
    ghost method Adopt(w: Wrapper)
      requires Valid() && w !in wrappers && w.ptr != 0 && w.ptr !in native
      modifies this`calls, this`native, this`wrappers, this`holder
      ensures Tracked({})
      ensures wrappers == old(wrappers) + {w}
      ensures native == old(native)[w.ptr := w.kind] && calls == old(calls) + [Made(w.ptr, w.kind)]
    {
      ReplayNext(calls, Made(w.ptr, w.kind));
      wrappers, holder := wrappers + {w}, holder[w.ptr := w];
      native, calls := native[w.ptr := w.kind], calls + [Made(w.ptr, w.kind)];
      assert native.Keys == holder.Keys + leaked;
    }

    /** `__destroy_into_raw`: the pointer leaves the wrapper, which is unregistered. */
    method DestroyIntoRaw(w: Wrapper) returns (raw: nat)
      requires Valid() && w in wrappers
      modifies this`registry, this`holder, w`ptr
      ensures raw == old(w.ptr) && w.ptr == 0
      ensures Consistent(if raw == 0 then {} else {raw})
      ensures raw != 0 ==> raw in native && native[raw] == w.kind
    {
      raw := w.ptr;
      w.ptr := 0;
      registry, holder := registry - {w}, holder - {raw};
    }

    /** The native side takes the pointer back: by `__wbg_…_free`, or by a call that consumes it. */
    ghost method Release(raw: nat, kind: Kind, freed: bool)
      requires Consistent(if raw == 0 then {} else {raw})
      requires raw != 0 ==> raw in native && native[raw] == kind
      modifies this`native, this`calls
      ensures Valid() && native == old(native) - {raw}
      ensures calls == old(calls) + [if freed then Freed(raw, kind) else Consumed(raw, kind)]
    {
      var c := if freed then Freed(raw, kind) else Consumed(raw, kind);
      ReleaseReplays(calls, native, c);
      calls, native := calls + [c], native - {raw};
    }

    /** `free()`; a second call hands over zero. */
    method Free(w: Wrapper)
      requires Valid() && w in wrappers
      modifies this`registry, this`holder, this`native, this`calls, w`ptr
      ensures Valid() && w.ptr == 0
      ensures native == old(native) - {old(w.ptr)} && calls == old(calls) + [Freed(old(w.ptr), w.kind)]
    {
      var raw := DestroyIntoRaw(w);
      Release(raw, w.kind, true);
    }

    /** `PreSign.toBytes`: the native call consumes the object. */
    method ToBytes(w: Wrapper)
      requires Valid() && w in wrappers && w.kind == PreSign
      modifies this`registry, this`holder, this`native, this`calls, w`ptr
      ensures Valid() && w.ptr == 0
      ensures native == old(native) - {old(w.ptr)} && calls == old(calls) + [Consumed(old(w.ptr), PreSign)]
    {
      var raw := DestroyIntoRaw(w);
      Release(raw, PreSign, false);
    }

    /**
     * `new FinalSession(setup, id, pre)` and `new QcSession(setup, id, keyshare)`: the argument is
     * consumed even when the native constructor reports an error (`made` is None). The native side
     * sees `passed`; zero stands for no argument at all, and a wrapper used up before passes zero too.
     * The new object may lie where the consumed one was.
     */
    method NewConsuming(kind: Kind, arg: Wrapper?, made: Option<nat>) returns (passed: nat, w: Wrapper?)
      requires Valid() && (arg != null ==> arg in wrappers)
      requires kind == FinalSession ==> arg != null && arg.kind == PreSign
      requires kind == QcSession ==> arg != null ==> arg.kind == Keyshare
      requires made.Some? ==> made.value != 0 && (made.value !in native || (arg != null && arg.ptr == made.value))
      modifies this, arg
      ensures Valid() && (arg != null ==> arg.ptr == 0)
      ensures passed == if arg == null then 0 else old(arg.ptr)
      ensures w == null <==> made.None?
      ensures w != null ==> fresh(w) && w.kind == kind && w.ptr == made.value && wrappers == old(wrappers) + {w}
      ensures w == null ==> wrappers == old(wrappers) && native == old(native) - {passed}
      ensures w != null ==> native == (old(native) - {passed})[made.value := kind]
      ensures calls == old(calls) + (if arg == null then [] else [Consumed(passed, arg.kind)])
                       + (if w == null then [] else [Made(made.value, kind)])
    {
      passed := 0;
      if arg != null {
        passed := DestroyIntoRaw(arg);
        Release(passed, arg.kind, false);
      }
      w := null;
      if made.Some? {
        w := Wrap(kind, made.value);
      }
    }

    /** Methods that only read (`publicKey`, `toBytes` of a keyshare, `inputMessage`, …) pass the pointer on. */
    method Borrow(w: Wrapper) returns (passed: nat)
      requires Valid() && w in wrappers
      ensures Valid() && passed == w.ptr
      ensures passed != 0 ==> passed in native && native[passed] == w.kind
    {
      passed := w.ptr;
    }

    /** The collector reclaims an unreachable wrapper; if it is registered, its finalizer frees the pointer. */
    method Collect(w: Wrapper)
      requires Valid() && w in wrappers
      modifies this
      ensures Valid() && wrappers == old(wrappers) - {w}
      ensures w in old(registry) ==>
                native == old(native) - {w.ptr} && calls == old(calls) + [Freed(w.ptr, w.kind)] && leaked == old(leaked)
      ensures w !in old(registry) ==>
                && native == old(native) && calls == old(calls)
                && leaked == old(leaked) + (if w.ptr == 0 then {} else {w.ptr})
    {
      wrappers := wrappers - {w};
      if w in registry {
        var raw := registry[w];
        registry, holder := registry - {w}, holder - {raw};
        Release(raw, w.kind, true);
      } else if w.ptr != 0 {
        leaked, holder := leaked + {w.ptr}, holder - {w.ptr};
      }
    }
  }
}
