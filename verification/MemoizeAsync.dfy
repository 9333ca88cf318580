/**
 * `memoizeAsync`: one cache and one table of pending promises, changed by every call and by every
 * settlement of an underlying call. Keys are the JSON texts of the arguments; clock readings are inputs.
 */
module MemoizeAsync {
  import opened Wrappers

  type Key = string

  datatype Entry<V> = Entry(data: V, updatedAt: int)

  /** One underlying call. It may throw before it returns a promise, and then is rejected at once. */
  datatype Promise<V> =
    | InFlight(key: Key)
    | Fulfilled(key: Key, data: V, at: int)
    | Rejected(key: Key, synchronously: bool)

  /** What a caller is given: cached data, or a promise to wait for. */
  datatype Answer<V> = Cached(entry: Entry<V>) | Joined(promise: nat)

  datatype Caller<V> = Caller(key: Key, start: int, answer: Answer<V>)

  /** The two maps of the closure, and the history of underlying calls, successes and callers. */
  datatype Memo<V> = Memo(
    cache: map<Key, Entry<V>>,
    pending: map<Key, nat>,
    promises: seq<Promise<V>>,
    lastSuccess: map<Key, nat>,
    callers: seq<Caller<V>>)

  /**
   * The underlying function may call the memoized one for its own key before it first waits. `nested` has one
   * entry for each such level, the innermost first; an entry says whether that level throws synchronously.
   */
  datatype Event<V> =
    | Call(key: Key, now: int, nested: seq<bool>, throwsSynchronously: bool)
    | Fulfil(promise: nat, data: V, now: int)
    | Reject(promise: nat)

  /** An absent cache time and a cache time of 0 both mean that entries never expire. */
  predicate NeverExpires(cacheTime: Option<nat>) {
    cacheTime == None || cacheTime.value == 0
  }

  predicate Hit<V>(cacheTime: Option<nat>, cache: map<Key, Entry<V>>, key: Key, now: int) {
    key in cache && (NeverExpires(cacheTime) || cache[key].updatedAt >= now - cacheTime.value)
  }

  /** Neither cached nor pending: the underlying function is called. */
  predicate Calls<V>(cacheTime: Option<nat>, m: Memo<V>, key: Key, now: int) {
    !Hit(cacheTime, m.cache, key, now) && key !in m.pending
  }

  function AnswerTo<V>(cacheTime: Option<nat>, m: Memo<V>, key: Key, now: int, nested: nat): Answer<V> {
    if Hit(cacheTime, m.cache, key, now) then Cached(m.cache[key])
    else if key in m.pending then Joined(m.pending[key])
    else Joined(|m.promises| + nested)
  }

  /** The promises that the levels of one call leave, in the order in which they are made. */
  function Made<V>(key: Key, ends: seq<bool>): seq<Promise<V>> {
    seq(|ends|, i requires 0 <= i < |ends| => if ends[i] then Rejected(key, true) else InFlight(key))
  }

  function Joining<V>(key: Key, now: int, first: nat, count: nat): seq<Caller<V>> {
    seq(count, i requires 0 <= i < count => Caller(key, now, Joined(first + i)))
  }

  /** Each level stores its promise after the levels inside it have stored theirs, so the outermost stays pending. */
  function AfterCall<V>(
      cacheTime: Option<nat>, m: Memo<V>, key: Key, now: int, nested: seq<bool>, throws: bool): Memo<V> {
    if !Calls(cacheTime, m, key, now) then
      m.(callers := m.callers + [Caller(key, now, AnswerTo(cacheTime, m, key, now, 0))])
    else
      m.(promises := m.promises + Made(key, nested + [throws]),
         pending := m.pending[key := |m.promises| + |nested|],
         callers := m.callers + Joining(key, now, |m.promises|, |nested| + 1))
  }

  function AfterFulfil<V>(m: Memo<V>, p: nat, data: V, now: int): Memo<V>
    requires p < |m.promises|
  {
    var key := m.promises[p].key;
    m.(cache := m.cache[key := Entry(data, now)],
       pending := m.pending - {key},
       promises := m.promises[p := Fulfilled(key, data, now)],
       lastSuccess := m.lastSuccess[key := p])
  }

  function AfterReject<V>(m: Memo<V>, p: nat): Memo<V>
    requires p < |m.promises|
  {
    var key := m.promises[p].key;
    m.(pending := m.pending - {key}, promises := m.promises[p := Rejected(key, false)])
  }

  predicate Flying<V>(m: Memo<V>, p: nat) {
    p < |m.promises| && m.promises[p].InFlight?
  }

  /** A settlement of a call that is not in flight is no event and changes nothing. */
  function Step<V>(cacheTime: Option<nat>, m: Memo<V>, event: Event<V>): Memo<V> {
    match event
    case Call(key, now, nested, throws) => AfterCall(cacheTime, m, key, now, nested, throws)
    case Fulfil(p, data, now) => if Flying(m, p) then AfterFulfil(m, p, data, now) else m
    case Reject(p) => if Flying(m, p) then AfterReject(m, p) else m
  }

  function Run<V>(cacheTime: Option<nat>, events: seq<Event<V>>): Memo<V>
    decreases |events|
  {
    if events == [] then Memo(map[], map[], [], map[], [])
    else Step(cacheTime, Run(cacheTime, events[..|events| - 1]), events[|events| - 1])
  }

  // ----- the closure itself -----

  function Ended<V>(key: Key, throws: bool): Promise<V> {
    if throws then Rejected(key, true) else InFlight(key)
  }

  /** A level stores its promise on top of what the levels inside it left. */
  function Stored<V>(inner: Memo<V>, key: Key, now: int, throws: bool): Memo<V> {
    inner.(promises := inner.promises + [Ended(key, throws)],
           pending := inner.pending[key := |inner.promises|],
           callers := inner.callers + [Caller(key, now, Joined(|inner.promises|))])
  }

  lemma OneLevel<V>(cacheTime: Option<nat>, m: Memo<V>, key: Key, now: int, throws: bool)
    requires Calls(cacheTime, m, key, now)
    ensures AfterCall(cacheTime, m, key, now, [], throws) == Stored(m, key, now, throws)
  {
    assert Made<V>(key, [] + [throws]) == [Ended(key, throws)];
    assert Joining<V>(key, now, |m.promises|, 1) == [Caller(key, now, Joined(|m.promises|))];
  }

  lemma OuterLevel<V>(
      cacheTime: Option<nat>, m: Memo<V>, key: Key, now: int, nested: seq<bool>, throws: bool)
    requires Calls(cacheTime, m, key, now) && nested != []
    ensures var last := |nested| - 1;
            AfterCall(cacheTime, m, key, now, nested, throws)
            == Stored(AfterCall(cacheTime, m, key, now, nested[..last], nested[last]), key, now, throws)
  {
    var last := |nested| - 1;
    var base := |m.promises|;
    assert nested[..last] + [nested[last]] == nested;
    assert Made<V>(key, nested + [throws]) == Made(key, nested) + [Ended(key, throws)];
    assert m.promises + Made(key, nested + [throws]) == (m.promises + Made(key, nested)) + [Ended(key, throws)];
    var joining := Joining<V>(key, now, base, |nested|);
    assert Joining<V>(key, now, base, |nested| + 1) == joining + [Caller(key, now, Joined(base + |nested|))];
    assert m.callers + Joining(key, now, base, |nested| + 1)
        == (m.callers + joining) + [Caller(key, now, Joined(base + |nested|))];
    assert m.pending[key := base + last][key := base + |nested|] == m.pending[key := base + |nested|];
  }

  class Memoized<V> {
    const cacheTime: Option<nat>
    var cache: map<Key, Entry<V>>
    var pendingPromises: map<Key, nat>
    var made: nat
    ghost var memo: Memo<V>

    ghost predicate Valid()
      reads this
    {
      cache == memo.cache && pendingPromises == memo.pending && made == |memo.promises|
      && forall k :: k in memo.pending ==> memo.pending[k] < made
    }

    constructor (cacheTime: Option<nat>)
      ensures Valid() && this.cacheTime == cacheTime && memo == Run(cacheTime, [])
    {
      this.cacheTime := cacheTime;
      cache, pendingPromises, made := map[], map[], 0;
      memo := Memo(map[], map[], [], map[], []);
    }

    /** An underlying call that throws runs to its `finally` before its promise is stored. */
    method StorePromise(key: Key, now: int, throws: bool)
      requires Valid()
      modifies this
      ensures Valid() && made == old(made) + 1 && memo == Stored(old(memo), key, now, throws)
    {
      if throws {
        pendingPromises := pendingPromises - {key};
      }
      pendingPromises := pendingPromises[key := made];
      made := made + 1;
      memo := Stored(memo, key, now, throws);
    }

    /** `memoizedFunc` */
    method CallFor(key: Key, now: int, nested: seq<bool>, throws: bool) returns (answer: Answer<V>)
      requires Valid()
      modifies this
      ensures Valid() && memo == Step(cacheTime, old(memo), Call(key, now, nested, throws))
      ensures answer == AnswerTo(cacheTime, old(memo), key, now, |nested|)
      decreases |nested|
    {
      if key in cache && (cacheTime == None || cacheTime.value == 0 || cache[key].updatedAt >= now - cacheTime.value) {
        answer := Cached(cache[key]);
      } else if key in pendingPromises {
        answer := Joined(pendingPromises[key]);
      } else {
        if nested == [] {
          OneLevel(cacheTime, memo, key, now, throws);
        } else {
          OuterLevel(cacheTime, memo, key, now, nested, throws);
          var last := |nested| - 1;
          var inner := CallFor(key, now, nested[..last], nested[last]);
        }
        StorePromise(key, now, throws);
        answer := Joined(made - 1);
        return;
      }
      memo := Step(cacheTime, memo, Call(key, now, nested, throws));
    }

    /** The call succeeded: the rest of the `try` and the `finally`. */
    method OnFulfilled(key: Key, p: nat, data: V, now: int)
      requires Valid() && Flying(memo, p) && memo.promises[p].key == key
      modifies this
      ensures Valid() && memo == Step(cacheTime, old(memo), Fulfil(p, data, now))
    {
      cache := cache[key := Entry(data, now)];
      pendingPromises := pendingPromises - {key};
      memo := Step(cacheTime, memo, Fulfil(p, data, now));
    }

    /** The call failed: only the `finally`. */
    method OnRejected(key: Key, p: nat)
      requires Valid() && Flying(memo, p) && memo.promises[p].key == key
      modifies this
      ensures Valid() && memo == Step(cacheTime, old(memo), Reject(p))
    {
      pendingPromises := pendingPromises - {key};
      memo := Step(cacheTime, memo, Reject(p));
    }
  }

  // ----- what every run keeps -----

  predicate SynchronouslyThrown<V>(m: Memo<V>, p: nat) {
    p < |m.promises| && m.promises[p].Rejected? && m.promises[p].synchronously
  }

  /** What is pending is a call of its key, in flight or thrown synchronously. */
  ghost predicate PendingIsLive<V>(m: Memo<V>) {
    forall k :: k in m.pending ==>
      && m.pending[k] < |m.promises| && m.promises[m.pending[k]].key == k
      && (Flying(m, m.pending[k]) || SynchronouslyThrown(m, m.pending[k]))
  }

  /** Each cache entry is what the last successful call for that very key returned. */
  ghost predicate CacheIsLastSuccess<V>(m: Memo<V>) {
    && m.cache.Keys == m.lastSuccess.Keys
    && (forall k :: k in m.cache ==>
          m.lastSuccess[k] < |m.promises|
          && m.promises[m.lastSuccess[k]] == Fulfilled(k, m.cache[k].data, m.cache[k].updatedAt))
  }

  /** The promises there were stay, and the new ones are of the key, in flight or thrown. */
  lemma CallAppends<V>(cacheTime: Option<nat>, m: Memo<V>, key: Key, now: int, nested: seq<bool>, throws: bool, q: nat)
    requires q < |AfterCall(cacheTime, m, key, now, nested, throws).promises|
    ensures var m' := AfterCall(cacheTime, m, key, now, nested, throws);
            && (q < |m.promises| ==> m'.promises[q] == m.promises[q])
            && (q >= |m.promises| ==>
                  Calls(cacheTime, m, key, now) && q - |m.promises| < |nested| + 1
                  && m'.promises[q]
                     == if (nested + [throws])[q - |m.promises|] then Rejected(key, true) else InFlight(key))
  {
  }

  lemma CallKeepsPendingLive<V>(cacheTime: Option<nat>, m: Memo<V>, event: Event<V>, k: Key)
    requires event.Call? && PendingIsLive(m) && k in Step(cacheTime, m, event).pending
    ensures var m' := Step(cacheTime, m, event);
            && m'.pending[k] < |m'.promises| && m'.promises[m'.pending[k]].key == k
            && (Flying(m', m'.pending[k]) || SynchronouslyThrown(m', m'.pending[k]))
  {
    var m' := Step(cacheTime, m, event);
    CallAppends(cacheTime, m, event.key, event.now, event.nested, event.throwsSynchronously, m'.pending[k]);
  }

  lemma StepKeepsPendingLive<V>(cacheTime: Option<nat>, m: Memo<V>, event: Event<V>)
    requires PendingIsLive(m)
    ensures PendingIsLive(Step(cacheTime, m, event))
  {
    if event.Call? {
      forall k | k in Step(cacheTime, m, event).pending {
        CallKeepsPendingLive(cacheTime, m, event, k);
      }
    }
  }

  lemma StepKeepsLastSuccess<V>(cacheTime: Option<nat>, m: Memo<V>, event: Event<V>)
    requires CacheIsLastSuccess(m)
    ensures CacheIsLastSuccess(Step(cacheTime, m, event))
  {
    var m' := Step(cacheTime, m, event);
    if event.Call? {
      assert forall q: nat :: q < |m.promises| ==> m'.promises[q] == m.promises[q];
    } else if Flying(m, event.promise) {
      assert forall q: nat :: q < |m.promises| && q != event.promise ==> m'.promises[q] == m.promises[q];
    }
  }

  lemma {:induction false} RunIsLive<V>(cacheTime: Option<nat>, events: seq<Event<V>>)
    ensures PendingIsLive(Run(cacheTime, events)) && CacheIsLastSuccess(Run(cacheTime, events))
    decreases |events|
  {
    if events != [] {
      var init := events[..|events| - 1];
      RunIsLive(cacheTime, init);
      StepKeepsPendingLive(cacheTime, Run(cacheTime, init), events[|events| - 1]);
      StepKeepsLastSuccess(cacheTime, Run(cacheTime, init), events[|events| - 1]);
    }
  }

  // ----- one call at a time for each key -----

  ghost predicate OneInFlightPerKey<V>(m: Memo<V>) {
    forall p: nat, q: nat :: Flying(m, p) && Flying(m, q) && m.promises[p].key == m.promises[q].key ==> p == q
  }

  ghost predicate FlyingIsPending<V>(m: Memo<V>) {
    forall p: nat :: Flying(m, p) ==> m.promises[p].key in m.pending
  }

  /** The underlying function is called, and two of its levels return a promise. */
  predicate Overlaps<V>(cacheTime: Option<nat>, m: Memo<V>, event: Event<V>) {
    && event.Call? && Calls(cacheTime, m, event.key, event.now)
    && var ends := event.nested + [event.throwsSynchronously];
       exists i, j :: 0 <= i < j < |ends| && !ends[i] && !ends[j]
  }

  ghost predicate NeverOverlaps<V>(cacheTime: Option<nat>, events: seq<Event<V>>) {
    forall n :: 0 <= n < |events| ==> !Overlaps(cacheTime, Run(cacheTime, events[..n]), events[n])
  }

  /** Of the levels of a call that does not overlap with itself at most one is in flight. */
  lemma NewOnesAreOne<V>(cacheTime: Option<nat>, m: Memo<V>, event: Event<V>, p: nat, q: nat)
    requires event.Call? && !Overlaps(cacheTime, m, event)
    requires Flying(Step(cacheTime, m, event), p) && Flying(Step(cacheTime, m, event), q)
    ensures |m.promises| <= p && |m.promises| <= q ==> p == q
  {
    CallAppends(cacheTime, m, event.key, event.now, event.nested, event.throwsSynchronously, p);
    CallAppends(cacheTime, m, event.key, event.now, event.nested, event.throwsSynchronously, q);
    var base, ends := |m.promises|, event.nested + [event.throwsSynchronously];
    assert base <= p ==> !ends[p - base];
    assert base <= q ==> !ends[q - base];
  }

  lemma CallKeepsOneInFlight<V>(cacheTime: Option<nat>, m: Memo<V>, event: Event<V>)
    requires event.Call? && OneInFlightPerKey(m) && FlyingIsPending(m) && !Overlaps(cacheTime, m, event)
    ensures OneInFlightPerKey(Step(cacheTime, m, event)) && FlyingIsPending(Step(cacheTime, m, event))
  {
    var m' := Step(cacheTime, m, event);
    var base := |m.promises|;
    forall p: nat | Flying(m', p)
      ensures p < base ==> Flying(m, p) && m.promises[p] == m'.promises[p]
      ensures m'.promises[p].key in m'.pending
    {
      CallAppends(cacheTime, m, event.key, event.now, event.nested, event.throwsSynchronously, p);
    }
    forall p: nat, q: nat | Flying(m', p) && Flying(m', q) && m'.promises[p].key == m'.promises[q].key
      ensures p == q
    {
      CallAppends(cacheTime, m, event.key, event.now, event.nested, event.throwsSynchronously, p);
      CallAppends(cacheTime, m, event.key, event.now, event.nested, event.throwsSynchronously, q);
      assert base <= p && base <= q ==> p == q by {
        NewOnesAreOne(cacheTime, m, event, p, q);
      }
    }
  }

  lemma StepKeepsOneInFlight<V>(cacheTime: Option<nat>, m: Memo<V>, event: Event<V>)
    requires OneInFlightPerKey(m) && FlyingIsPending(m) && !Overlaps(cacheTime, m, event)
    ensures OneInFlightPerKey(Step(cacheTime, m, event)) && FlyingIsPending(Step(cacheTime, m, event))
  {
    if event.Call? {
      CallKeepsOneInFlight(cacheTime, m, event);
    } else {
      var m' := Step(cacheTime, m, event);
      assert forall q: nat :: Flying(m', q) ==> Flying(m, q) && m'.promises[q] == m.promises[q];
    }
  }

  lemma {:induction false} RunHasOneInFlight<V>(cacheTime: Option<nat>, events: seq<Event<V>>)
    requires NeverOverlaps(cacheTime, events)
    ensures OneInFlightPerKey(Run(cacheTime, events)) && FlyingIsPending(Run(cacheTime, events))
    decreases |events|
  {
    if events != [] {
      var n := |events| - 1;
      assert forall k :: 0 <= k < n ==> events[..n][..k] == events[..k];
      RunHasOneInFlight(cacheTime, events[..n]);
      StepKeepsOneInFlight(cacheTime, Run(cacheTime, events[..n]), events[n]);
    }
  }

  lemma OverlapFliesTwice<V>(cacheTime: Option<nat>, m: Memo<V>, event: Event<V>)
    requires Overlaps(cacheTime, m, event)
    ensures !OneInFlightPerKey(Step(cacheTime, m, event))
  {
    var ends := event.nested + [event.throwsSynchronously];
    var i, j :| 0 <= i < j < |ends| && !ends[i] && !ends[j];
    var m', base := Step(cacheTime, m, event), |m.promises|;
    assert m'.promises[base + i] == InFlight(event.key) && m'.promises[base + j] == InFlight(event.key);
    assert Flying(m', base + i) && Flying(m', base + j);
  }

  lemma OverlapShows<V>(cacheTime: Option<nat>, events: seq<Event<V>>, n: nat)
    requires n < |events| && Overlaps(cacheTime, Run(cacheTime, events[..n]), events[n])
    ensures !OneInFlightPerKey(Run(cacheTime, events[..n + 1]))
  {
    var until := events[..n + 1];
    assert until[..|until| - 1] == events[..n] && until[|until| - 1] == events[n];
    OverlapFliesTwice(cacheTime, Run(cacheTime, events[..n]), events[n]);
  }

  lemma PrefixNeverOverlaps<V>(cacheTime: Option<nat>, events: seq<Event<V>>, n: nat)
    requires n <= |events| && NeverOverlaps(cacheTime, events)
    ensures NeverOverlaps(cacheTime, events[..n])
  {
    assert forall k :: 0 <= k < n ==> events[..n][..k] == events[..k] && events[..n][k] == events[k];
  }

  /**
   * At every point of a run at most one underlying call for each key is in flight, if and only if the underlying
   * function never calls the memoized one for its own key so that two levels return a promise.
   */
  lemma SingleFlightIff<V>(cacheTime: Option<nat>, events: seq<Event<V>>)
    ensures (forall n :: 0 <= n <= |events| ==> OneInFlightPerKey(Run(cacheTime, events[..n])))
            <==> NeverOverlaps(cacheTime, events)
  {
    if NeverOverlaps(cacheTime, events) {
      forall n | 0 <= n <= |events| ensures OneInFlightPerKey(Run(cacheTime, events[..n])) {
        PrefixNeverOverlaps(cacheTime, events, n);
        RunHasOneInFlight(cacheTime, events[..n]);
      }
    } else {
      var n :| 0 <= n < |events| && Overlaps(cacheTime, Run(cacheTime, events[..n]), events[n]);
      OverlapShows(cacheTime, events, n);
    }
  }

  /** The underlying function does not call the memoized one for its own key before it waits. */
  predicate Unnested<V>(events: seq<Event<V>>) {
    forall i :: 0 <= i < |events| && events[i].Call? ==> events[i].nested == []
  }

  ghost predicate ThrownIsPending<V>(m: Memo<V>) {
    forall p: nat :: SynchronouslyThrown(m, p) ==>
      m.promises[p].key in m.pending && m.pending[m.promises[p].key] == p
      && forall q: nat :: Flying(m, q) ==> m.promises[q].key != m.promises[p].key
  }

  lemma CallKeepsThrownPending<V>(cacheTime: Option<nat>, m: Memo<V>, key: Key, now: int, throws: bool)
    requires FlyingIsPending(m) && ThrownIsPending(m)
    ensures ThrownIsPending(AfterCall(cacheTime, m, key, now, [], throws))
  {
    var m' := AfterCall(cacheTime, m, key, now, [], throws);
    if Calls(cacheTime, m, key, now) {
      OneLevel(cacheTime, m, key, now, throws);
      assert m'.promises == m.promises + [Ended(key, throws)];
      assert forall q: nat :: q < |m.promises| ==> m'.promises[q] == m.promises[q];
    }
  }

  lemma StepKeepsThrownPending<V>(cacheTime: Option<nat>, m: Memo<V>, event: Event<V>)
    requires event.Call? ==> event.nested == []
    requires FlyingIsPending(m) && ThrownIsPending(m)
    ensures ThrownIsPending(Step(cacheTime, m, event))
  {
    var m' := Step(cacheTime, m, event);
    if event.Call? {
      CallKeepsThrownPending(cacheTime, m, event.key, event.now, event.throwsSynchronously);
    } else {
      assert forall q: nat :: SynchronouslyThrown(m', q) ==> SynchronouslyThrown(m, q);
      assert forall q: nat :: Flying(m', q) ==> Flying(m, q);
    }
  }

  lemma {:induction false} UnnestedRun<V>(cacheTime: Option<nat>, events: seq<Event<V>>)
    requires Unnested(events)
    ensures NeverOverlaps(cacheTime, events) && ThrownIsPending(Run(cacheTime, events))
    decreases |events|
  {
    if events != [] {
      var n := |events| - 1;
      assert forall k :: 0 <= k < n ==> events[..n][..k] == events[..k];
      UnnestedRun(cacheTime, events[..n]);
      RunHasOneInFlight(cacheTime, events[..n]);
      StepKeepsThrownPending(cacheTime, Run(cacheTime, events[..n]), events[n]);
      forall k | 0 <= k < |events| ensures !Overlaps(cacheTime, Run(cacheTime, events[..k]), events[k]) {
        if k < n {
          assert events[..n][..k] == events[..k] && events[..n][k] == events[k];
        }
      }
    }
  }

  /** A key is pending exactly while its call is in flight, if and only if no call ever threw synchronously. */
  lemma PendingIsInFlightIff<V>(cacheTime: Option<nat>, events: seq<Event<V>>)
    requires Unnested(events)
    ensures var m := Run(cacheTime, events);
            (forall k :: k in m.pending <==> exists p: nat :: Flying(m, p) && m.promises[p].key == k)
            <==> (forall p: nat :: !SynchronouslyThrown(m, p))
  {
    RunIsLive(cacheTime, events);
    UnnestedRun(cacheTime, events);
    RunHasOneInFlight(cacheTime, events);
    var m := Run(cacheTime, events);
    if forall p: nat :: !SynchronouslyThrown(m, p) {
      forall k | k in m.pending ensures Flying(m, m.pending[k]) && m.promises[m.pending[k]].key == k {
      }
    }
  }

  // ----- synchronous throws -----

  /** Nothing for the key is in flight, and what is pending for it will never be settled again. */
  ghost predicate Blocked<V>(m: Memo<V>, p: nat, key: Key) {
    && SynchronouslyThrown(m, p) && m.promises[p].key == key
    && key in m.pending && m.pending[key] == p
    && (forall q: nat :: Flying(m, q) ==> m.promises[q].key != key)
  }

  /** Blocked, and no call after the first `made` ones is for the key. */
  ghost predicate Poisoned<V>(m: Memo<V>, p: nat, key: Key, made: nat) {
    && Blocked(m, p, key)
    && made <= |m.promises|
    && (forall q: nat :: made <= q < |m.promises| ==> m.promises[q].key != key)
  }

  lemma StepKeepsPoisoned<V>(cacheTime: Option<nat>, m: Memo<V>, event: Event<V>, p: nat, key: Key, made: nat)
    requires Poisoned(m, p, key, made)
    ensures Poisoned(Step(cacheTime, m, event), p, key, made)
  {
    var m' := Step(cacheTime, m, event);
    if event.Call? {
      forall q: nat | q < |m'.promises|
        ensures q < |m.promises| ==> m'.promises[q] == m.promises[q]
        ensures q >= |m.promises| ==> m'.promises[q].key != key
      {
        CallAppends(cacheTime, m, event.key, event.now, event.nested, event.throwsSynchronously, q);
      }
      assert forall q: nat :: q < |m.promises| ==> (Flying(m', q) <==> Flying(m, q));
    } else {
      assert forall q: nat :: q < |m.promises| ==> m'.promises[q].key == m.promises[q].key;
      assert forall q: nat :: Flying(m', q) ==> Flying(m, q);
    }
  }

  /** Once a key is blocked, no later event ever makes another call for it. */
  lemma {:induction false} SynchronousThrowPoisons<V>(
      cacheTime: Option<nat>, events: seq<Event<V>>, later: seq<Event<V>>, p: nat, key: Key)
    requires Blocked(Run(cacheTime, events), p, key)
    ensures Poisoned(Run(cacheTime, events + later), p, key, |Run(cacheTime, events).promises|)
    ensures var m' := Run(cacheTime, events + later);
            forall now, nested :: !Hit(cacheTime, m'.cache, key, now) ==>
              AnswerTo(cacheTime, m', key, now, nested) == Joined(p)
    decreases |later|
  {
    if later == [] {
      assert events + later == events;
    } else {
      var init := later[..|later| - 1];
      SynchronousThrowPoisons(cacheTime, events, init, p, key);
      assert (events + later)[..|events + later| - 1] == events + init;
      var before, last := Run(cacheTime, events + init), later[|later| - 1];
      StepKeepsPoisoned(cacheTime, before, last, p, key, |Run(cacheTime, events).promises|);
    }
  }

  /** Without nested calls every synchronous throw blocks its key at once, and so for ever. */
  lemma SynchronousThrowBlocks<V>(cacheTime: Option<nat>, events: seq<Event<V>>, p: nat)
    requires Unnested(events) && SynchronouslyThrown(Run(cacheTime, events), p)
    ensures Blocked(Run(cacheTime, events), p, Run(cacheTime, events).promises[p].key)
  {
    UnnestedRun(cacheTime, events);
  }

  /** A nested call in flight is what can unblock a key: its settlement removes what is pending. */
  lemma FlyingCallUnblocks<V>(cacheTime: Option<nat>, events: seq<Event<V>>, q: nat)
    requires Flying(Run(cacheTime, events), q)
    ensures Run(cacheTime, events).promises[q].key !in Run(cacheTime, events + [Reject(q)]).pending
  {
    assert (events + [Reject(q)])[..|events|] == events;
  }

  // ----- what callers are given -----

  function TimeOf<V>(event: Event<V>): Option<int> {
    match event
    case Call(_, now, _, _) => Some(now)
    case Fulfil(_, _, now) => Some(now)
    case Reject(_) => None
  }

  /** The clock does not run backwards. */
  predicate Monotone<V>(events: seq<Event<V>>) {
    forall i, j :: 0 <= i < j < |events| && TimeOf(events[i]).Some? && TimeOf(events[j]).Some? ==>
      TimeOf(events[i]).value <= TimeOf(events[j]).value
  }

  /** A caller that is given data is given what an underlying call returned. */
  ghost predicate GivenBy<V>(m: Memo<V>, c: Caller<V>, p: nat) {
    && p < |m.promises| && m.promises[p].Fulfilled?
    && (c.answer.Joined? ==> p == c.answer.promise)
    && (c.answer.Cached? ==> c.answer.entry == Entry(m.promises[p].data, m.promises[p].at))
  }

  /** It was for the caller's own key, and not older than the cache time when the caller asked. */
  ghost predicate FreshFor<V>(cacheTime: Option<nat>, m: Memo<V>, c: Caller<V>, p: nat)
    requires GivenBy(m, c, p)
  {
    m.promises[p].key == c.key && (NeverExpires(cacheTime) || m.promises[p].at >= c.start - cacheTime.value)
  }

  /** The promise a caller waits for is its key's, and will be settled no earlier than the caller asked. */
  ghost predicate JoinedWell<V>(cacheTime: Option<nat>, m: Memo<V>, c: Caller<V>) {
    match c.answer
    case Joined(p) =>
      && p < |m.promises| && m.promises[p].key == c.key
      && (m.promises[p].Fulfilled? ==> m.promises[p].at >= c.start)
    case Cached(entry) =>
      && (NeverExpires(cacheTime) || entry.updatedAt >= c.start - cacheTime.value)
      && exists p: nat :: p < |m.promises| && m.promises[p] == Fulfilled(c.key, entry.data, entry.updatedAt)
  }

  lemma StepKeepsJoinedWell<V>(cacheTime: Option<nat>, m: Memo<V>, event: Event<V>, c: Caller<V>)
    requires JoinedWell(cacheTime, m, c) && (event.Fulfil? ==> c.start <= event.now)
    ensures JoinedWell(cacheTime, Step(cacheTime, m, event), c)
  {
    if c.answer.Cached? {
      var entry := c.answer.entry;
      var p: nat :| p < |m.promises| && m.promises[p] == Fulfilled(c.key, entry.data, entry.updatedAt);
      assert Step(cacheTime, m, event).promises[p] == m.promises[p];
    }
  }

  /** A caller that has just been answered. */
  lemma AnsweredWell<V>(cacheTime: Option<nat>, m: Memo<V>, event: Event<V>, i: nat)
    requires event.Call? && PendingIsLive(m) && CacheIsLastSuccess(m)
    requires |m.callers| <= i < |Step(cacheTime, m, event).callers|
    ensures JoinedWell(cacheTime, Step(cacheTime, m, event), Step(cacheTime, m, event).callers[i])
  {
    var m' := Step(cacheTime, m, event);
    if Hit(cacheTime, m.cache, event.key, event.now) {
      var p := m.lastSuccess[event.key];
      assert m'.promises[p] == m.promises[p];
      assert m.promises[p] == Fulfilled(event.key, m.cache[event.key].data, m.cache[event.key].updatedAt);
    } else {
      var p := m'.callers[i].answer.promise;
      CallAppends(cacheTime, m, event.key, event.now, event.nested, event.throwsSynchronously, p);
    }
  }

  /** Each caller called at some event of the run. */
  lemma {:induction false} CallersCalled<V>(cacheTime: Option<nat>, events: seq<Event<V>>, i: nat) returns (e: nat)
    requires i < |Run(cacheTime, events).callers|
    ensures e < |events| && TimeOf(events[e]) == Some(Run(cacheTime, events).callers[i].start)
    decreases |events|
  {
    var n := |events| - 1;
    if i < |Run(cacheTime, events[..n]).callers| {
      e := CallersCalled(cacheTime, events[..n], i);
    } else {
      e := n;
    }
  }

  lemma {:induction false} RunJoinsWell<V>(cacheTime: Option<nat>, events: seq<Event<V>>, i: nat)
    requires Monotone(events) && i < |Run(cacheTime, events).callers|
    ensures JoinedWell(cacheTime, Run(cacheTime, events), Run(cacheTime, events).callers[i])
    decreases |events|
  {
    var n := |events| - 1;
    var init, last := events[..n], events[n];
    var m := Run(cacheTime, init);
    if i < |m.callers| {
      RunJoinsWell(cacheTime, init, i);
      var e := CallersCalled(cacheTime, init, i);
      assert init[e] == events[e];
      StepKeepsJoinedWell(cacheTime, m, last, m.callers[i]);
    } else {
      RunIsLive(cacheTime, init);
      AnsweredWell(cacheTime, m, last, i);
    }
  }

  /** Every caller that is given data is given a result of its own key that was fresh when it asked. */
  lemma CallersGetFreshResults<V>(cacheTime: Option<nat>, events: seq<Event<V>>, i: nat)
    requires Monotone(events) && i < |Run(cacheTime, events).callers|
    ensures var m := Run(cacheTime, events);
            var c := m.callers[i];
            (c.answer.Joined? && c.answer.promise < |m.promises| && m.promises[c.answer.promise].Fulfilled?)
            || c.answer.Cached? ==>
              exists p: nat :: GivenBy(m, c, p) && FreshFor(cacheTime, m, c, p)
    ensures var c := Run(cacheTime, events).callers[i];
            c.answer.Joined? ==> c.answer.promise < |Run(cacheTime, events).promises|
  {
    RunJoinsWell(cacheTime, events, i);
    var m := Run(cacheTime, events);
    var c := m.callers[i];
    if c.answer.Joined? {
      if m.promises[c.answer.promise].Fulfilled? {
        assert GivenBy(m, c, c.answer.promise) && FreshFor(cacheTime, m, c, c.answer.promise);
      }
    } else {
      var entry := c.answer.entry;
      var p: nat :| p < |m.promises| && m.promises[p] == Fulfilled(c.key, entry.data, entry.updatedAt);
      assert GivenBy(m, c, p) && FreshFor(cacheTime, m, c, p);
    }
  }

  // ----- when the underlying function is called -----

  /** The underlying call of a key that succeeded last in a run, from its events alone. */
  ghost function LatestSuccess<V>(cacheTime: Option<nat>, events: seq<Event<V>>, key: Key): Option<nat>
    decreases |events|
  {
    if events == [] then None
    else
      var init, last := events[..|events| - 1], events[|events| - 1];
      var m := Run(cacheTime, init);
      if last.Fulfil? && Flying(m, last.promise) && m.promises[last.promise].key == key then Some(last.promise)
      else LatestSuccess(cacheTime, init, key)
  }

  /** The cache holds for each key what that call returned, and nothing else. */
  ghost predicate CachesLatest<V>(m: Memo<V>, key: Key, latest: Option<nat>) {
    && (key in m.cache <==> latest.Some?)
    && (latest.Some? ==>
          && latest.value < |m.promises|
          && m.promises[latest.value] == Fulfilled(key, m.cache[key].data, m.cache[key].updatedAt))
  }

  lemma {:induction false} RunCachesLatest<V>(cacheTime: Option<nat>, events: seq<Event<V>>, key: Key)
    ensures CachesLatest(Run(cacheTime, events), key, LatestSuccess(cacheTime, events, key))
    decreases |events|
  {
    if events != [] {
      var init := events[..|events| - 1];
      RunCachesLatest(cacheTime, init, key);
      StepCachesLatest(cacheTime, Run(cacheTime, init), events[|events| - 1], key, LatestSuccess(cacheTime, init, key));
    }
  }

  lemma StepCachesLatest<V>(cacheTime: Option<nat>, m: Memo<V>, event: Event<V>, key: Key, latest: Option<nat>)
    requires CachesLatest(m, key, latest)
    ensures var succeeds := event.Fulfil? && Flying(m, event.promise) && m.promises[event.promise].key == key;
            CachesLatest(Step(cacheTime, m, event), key, if succeeds then Some(event.promise) else latest)
  {
    var m' := Step(cacheTime, m, event);
    if latest.Some? {
      assert event.Call? ==> m'.promises[latest.value] == m.promises[latest.value];
      assert !event.Call? && event.promise != latest.value ==> m'.promises[latest.value] == m.promises[latest.value];
    }
  }

  /** With a cache time the result counts until it is older than that; without one, or with 0, for ever. */
  ghost predicate StillFresh<V>(cacheTime: Option<nat>, m: Memo<V>, latest: Option<nat>, now: int) {
    && latest.Some? && latest.value < |m.promises| && m.promises[latest.value].Fulfilled?
    && (cacheTime == None || cacheTime == Some(0) || now - m.promises[latest.value].at <= cacheTime.value)
  }

  lemma StillFreshIsHit<V>(cacheTime: Option<nat>, m: Memo<V>, key: Key, latest: Option<nat>, now: int)
    requires CachesLatest(m, key, latest)
    ensures StillFresh(cacheTime, m, latest, now) == Hit(cacheTime, m.cache, key, now)
    ensures StillFresh(cacheTime, m, latest, now) ==>
              m.cache[key] == Entry(m.promises[latest.value].data, m.promises[latest.value].at)
  {
  }

  lemma CallMakes<V>(cacheTime: Option<nat>, m: Memo<V>, key: Key, now: int, nested: seq<bool>, throws: bool)
    requires Calls(cacheTime, m, key, now)
    ensures var m' := AfterCall(cacheTime, m, key, now, nested, throws);
            && m'.cache == m.cache
            && |m'.promises| == |m.promises| + |nested| + 1 && m'.promises[..|m.promises|] == m.promises
            && (forall p :: |m.promises| <= p < |m'.promises| ==> m'.promises[p].key == key)
            && m'.pending == m.pending[key := |m'.promises| - 1]
            && |m'.callers| == |m.callers| + |nested| + 1
            && m'.callers[|m'.callers| - 1] == Caller(key, now, Joined(|m'.promises| - 1))
  {
  }

  /**
   * The call makes the underlying function run, in all its levels, exactly if nothing is pending for the key and the
   * last success of the key, if any, is too old. Otherwise the caller is given the data of that success if it is
   * fresh, or else the pending promise, and neither calls nor pending promises nor the cache change.
   */
  ghost predicate AnswersFrom<V>(cacheTime: Option<nat>, m: Memo<V>, m': Memo<V>, key: Key, latest: Option<nat>,
                                 now: int, nested: nat)
  {
    var usable := StillFresh(cacheTime, m, latest, now);
    && m'.cache == m.cache
    && (!usable && key !in m.pending ==>
          && |m'.promises| == |m.promises| + nested + 1 && m'.promises[..|m.promises|] == m.promises
          && (forall p :: |m.promises| <= p < |m'.promises| ==> m'.promises[p].key == key)
          && m'.pending == m.pending[key := |m'.promises| - 1]
          && |m'.callers| == |m.callers| + nested + 1
          && m'.callers[|m'.callers| - 1] == Caller(key, now, Joined(|m'.promises| - 1)))
    && (usable || key in m.pending ==> m'.promises == m.promises && m'.pending == m.pending)
    && (usable ==>
          var p := m.promises[latest.value];
          m'.callers == m.callers + [Caller(key, now, Cached(Entry(p.data, p.at)))])
    && (!usable && key in m.pending ==> m'.callers == m.callers + [Caller(key, now, Joined(m.pending[key]))])
  }

  /** One call, in a state whose cache holds what the latest success returned. */
  lemma CallAnswers<V>(cacheTime: Option<nat>, m: Memo<V>, key: Key, latest: Option<nat>,
                       now: int, nested: seq<bool>, throws: bool)
    requires CachesLatest(m, key, latest)
    ensures AnswersFrom(cacheTime, m, AfterCall(cacheTime, m, key, now, nested, throws), key, latest, now, |nested|)
  {
    StillFreshIsHit(cacheTime, m, key, latest, now);
    if Calls(cacheTime, m, key, now) {
      CallMakes(cacheTime, m, key, now, nested, throws);
    }
  }

  /** So every call of every run is answered from what happened before it. */
  lemma CallsExactlyWhen<V>(
      cacheTime: Option<nat>, events: seq<Event<V>>, key: Key, now: int, nested: seq<bool>, throws: bool)
    ensures AnswersFrom(cacheTime, Run(cacheTime, events),
                        Run(cacheTime, events + [Call(key, now, nested, throws)]),
                        key, LatestSuccess(cacheTime, events, key), now, |nested|)
  {
    assert (events + [Call(key, now, nested, throws)])[..|events|] == events;
    RunCachesLatest(cacheTime, events, key);
    CallAnswers(cacheTime, Run(cacheTime, events), key, LatestSuccess(cacheTime, events, key), now, nested, throws);
  }

  /** Without expiry no call is made for a key that has succeeded, so a key succeeds once. */
  ghost predicate SucceedsOnce<V>(m: Memo<V>) {
    && (forall p: nat :: p < |m.promises| && m.promises[p].Fulfilled? ==>
          m.promises[p].key in m.cache && m.promises[p].key in m.lastSuccess && m.lastSuccess[m.promises[p].key] == p)
    && (forall p: nat :: Flying(m, p) ==> m.promises[p].key !in m.cache)
  }

  lemma StepSucceedsOnce<V>(cacheTime: Option<nat>, m: Memo<V>, event: Event<V>)
    requires NeverExpires(cacheTime) && OneInFlightPerKey(m) && SucceedsOnce(m)
    ensures SucceedsOnce(Step(cacheTime, m, event))
  {
    var m' := Step(cacheTime, m, event);
    if event.Call? {
      forall q: nat | q < |m'.promises|
        ensures q < |m.promises| ==> m'.promises[q] == m.promises[q] && (Flying(m, q) <==> Flying(m', q))
        ensures q >= |m.promises| ==> !m'.promises[q].Fulfilled? && m'.promises[q].key !in m.cache
      {
        CallAppends(cacheTime, m, event.key, event.now, event.nested, event.throwsSynchronously, q);
      }
    } else {
      assert forall q: nat :: q < |m.promises| && q != event.promise ==>
          m'.promises[q] == m.promises[q] && (Flying(m, q) <==> Flying(m', q));
    }
  }

  lemma {:induction false} RunSucceedsOnce<V>(cacheTime: Option<nat>, events: seq<Event<V>>)
    requires NeverExpires(cacheTime) && NeverOverlaps(cacheTime, events)
    ensures SucceedsOnce(Run(cacheTime, events))
    decreases |events|
  {
    if events != [] {
      var init := events[..|events| - 1];
      assert forall k :: 0 <= k < |init| ==> init[..k] == events[..k];
      RunSucceedsOnce(cacheTime, init);
      RunHasOneInFlight(cacheTime, init);
      StepSucceedsOnce(cacheTime, Run(cacheTime, init), events[|events| - 1]);
    }
  }

  lemma OneSuccessPerKey<V>(cacheTime: Option<nat>, events: seq<Event<V>>, p: nat, q: nat)
    requires NeverExpires(cacheTime) && NeverOverlaps(cacheTime, events)
    requires var m := Run(cacheTime, events);
             p < |m.promises| && q < |m.promises| && m.promises[p].Fulfilled? && m.promises[q].Fulfilled?
             && m.promises[p].key == m.promises[q].key
    ensures p == q
  {
    RunSucceedsOnce(cacheTime, events);
  }
}
