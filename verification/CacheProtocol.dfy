/**
  Any number of callers sharing the model-list cache, interleaved at every await: reading
  it, queueing for its lock, fetching under the lock, and storing.
 */
module CacheProtocol {
  import opened KeyRows
  import opened ModelCaching

  type CallerId = nat

  datatype Place =
    | Asking
    | Queued
    | Fetching                       // holds the lock
    | Answered(list: seq<string>)
    | Broken                         // cancelled

  /** A list fetched from upstream, and the instant the fetch handed it to the cache. */
  datatype Heard = Heard(at: int, ids: seq<Item>)

  /** A store, and whether a fetched list was stored or the stale one anew. */
  datatype Stored = Stored(at: int, list: seq<string>, fetched: bool)

  /** The cache and its callers, with the lists upstream has returned and those stored. */
  datatype Shared = Shared(
    cache: Cache,
    ttl: int,
    lock: Option<CallerId>,
    clock: int,
    callers: map<CallerId, Place>,
    heard: seq<Heard>,
    stores: seq<Stored>)

  datatype Step =
    | Arrive(q: CallerId)
    | Look(q: CallerId)
    | Enter(q: CallerId)
    | Return(q: CallerId, f: Fetched)
    | Cancel(q: CallerId)
    | Tick(passed: nat)

  predicate At(s: Shared, q: CallerId, p: Place) {
    q in s.callers && s.callers[q] == p
  }

  predicate Enabled(s: Shared, a: Step) {
    match a
    case Arrive(q) => q !in s.callers
    case Look(q) => At(s, q, Asking)
    case Enter(q) => At(s, q, Queued) && s.lock == None
    case Return(q, _) => At(s, q, Fetching)
    case Cancel(q) => At(s, q, Asking) || At(s, q, Queued) || At(s, q, Fetching)
    case Tick(_) => true
  }

  function Next(s: Shared, a: Step): Shared
    requires Enabled(s, a)
  {
    match a
    case Arrive(q) => s.(callers := s.callers[q := Asking])
    case Look(q) =>
      s.(callers := s.callers[q := if Fresh(s.cache, s.ttl, s.clock) then Answered(Known(s.cache)) else Queued])
    case Enter(q) =>
      if Fresh(s.cache, s.ttl, s.clock) then s.(callers := s.callers[q := Answered(Known(s.cache))])
      else s.(lock := Some(q), callers := s.callers[q := Fetching])
    case Return(q, f) =>
      var after := AfterFetch(s.cache, f, s.clock);
      s.(cache := after,
         lock := None,
         callers := s.callers[q := Answered(Known(after))],
         heard := if f.Listing? then s.heard + [Heard(s.clock, f.ids)] else s.heard,
         stores := if Stores(s.cache, f) then s.stores + [Stored(s.clock, Known(after), f.Listing?)] else s.stores)
    case Cancel(q) =>
      s.(lock := if s.lock == Some(q) then None else s.lock, callers := s.callers[q := Broken])
    case Tick(passed) => s.(clock := s.clock + passed)
  }

  ghost predicate Initial(s: Shared) {
    s.cache == EMPTY && s.ttl > 0 && s.lock == None && s.callers == map[] && s.heard == [] && s.stores == []
  }

  ghost predicate StepAt(states: seq<Shared>, steps: seq<Step>, i: nat)
    requires |states| == |steps| + 1 && i < |steps|
  {
    Enabled(states[i], steps[i]) && states[i + 1] == Next(states[i], steps[i])
  }

  ghost predicate IsRun(states: seq<Shared>, steps: seq<Step>) {
    && |states| == |steps| + 1
    && Initial(states[0])
    && forall i :: 0 <= i < |steps| ==> StepAt(states, steps, i)
  }

  // ---------------------------------------------------------------- invariant

  ghost predicate LockOk(s: Shared) {
    forall q :: q in s.callers ==> (s.callers[q] == Fetching <==> s.lock == Some(q))
  }

  ghost predicate FromUpstream(list: seq<string>, heard: seq<Heard>) {
    exists i :: 0 <= i < |heard| && Cleaned(heard[i].ids) == list
  }

  /** The cache holds the last list stored; stores are clean, from upstream, and a lifetime apart. */
  ghost predicate StoresOk(s: Shared) {
    && (s.stores == [] ==> s.cache.models == None)
    && (s.stores != [] ==> s.cache.models == Some(s.stores[|s.stores| - 1].list)
                           && s.cache.lastRefresh == s.stores[|s.stores| - 1].at <= s.clock)
    && (forall i :: 0 <= i < |s.stores| ==> FitToStore(s.stores[i].list) && FromUpstream(s.stores[i].list, s.heard))
    && (forall i, j :: 0 <= i < j < |s.stores| && j == i + 1 ==> s.stores[j].at - s.stores[i].at > s.ttl)
  }

  /** Whoever fetches found the cache stale, and it still is. */
  ghost predicate FetchesStale(s: Shared) {
    s.lock.Some? ==> !Fresh(s.cache, s.ttl, s.clock) && At(s, s.lock.value, Fetching)
  }

  lemma HeardGrows(list: seq<string>, heard: seq<Heard>, h: Heard)
    requires FromUpstream(list, heard)
    ensures FromUpstream(list, heard + [h])
  {
    var i :| 0 <= i < |heard| && Cleaned(heard[i].ids) == list;
    assert (heard + [h])[i] == heard[i];
  }

  lemma ReturnKeepsStores(s: Shared, q: CallerId, f: Fetched)
    requires Enabled(s, Return(q, f)) && LockOk(s) && StoresOk(s) && FetchesStale(s)
    ensures StoresOk(Next(s, Return(q, f)))
  {
    var t := Next(s, Return(q, f));
    forall i | 0 <= i < |s.stores| ensures FromUpstream(s.stores[i].list, t.heard) {
      if f.Listing? {
        HeardGrows(s.stores[i].list, s.heard, Heard(s.clock, f.ids));
      }
    }
    if Stores(s.cache, f) {
      FetchEffects(s.cache, f, s.clock);
      var list := Known(t.cache);
      if f.Listing? {
        assert t.heard[|s.heard|] == Heard(s.clock, f.ids);
      } else {
        assert s.stores != [];
      }
      assert FromUpstream(list, t.heard);
    }
  }

  lemma NextKeepsInvariant(s: Shared, a: Step)
    requires Enabled(s, a) && LockOk(s) && StoresOk(s) && FetchesStale(s)
    ensures var t := Next(s, a); LockOk(t) && StoresOk(t) && FetchesStale(t)
  {
    if a.Return? {
      ReturnKeepsStores(s, a.q, a.f);
    }
  }

  lemma {:induction false} AlwaysOk(states: seq<Shared>, steps: seq<Step>, i: nat)
    requires IsRun(states, steps) && i < |states|
    ensures LockOk(states[i]) && StoresOk(states[i]) && FetchesStale(states[i])
    ensures states[i].ttl == states[0].ttl
  {
    if i > 0 {
      AlwaysOk(states, steps, i - 1);
      assert StepAt(states, steps, i - 1);
      NextKeepsInvariant(states[i - 1], steps[i - 1]);
    }
  }

  /** In any run consecutive stores are more than the lifetime apart. */
  lemma StoresSpaced(states: seq<Shared>, steps: seq<Step>, i: nat, k: nat)
    requires IsRun(states, steps) && i < |states| && k + 1 < |states[i].stores|
    ensures states[i].stores[k + 1].at - states[i].stores[k].at > states[0].ttl
  {
    AlwaysOk(states, steps, i);
    var j := k + 1;
    assert states[i].stores[j].at - states[i].stores[k].at > states[i].ttl;
  }

  /**
    Provenance: once there is a list in the cache it is not empty, has no duplicates and no
    empty names, and is the cleaning of one list upstream really returned, through any
    number of failed fetches that stored it again.
   */
  lemma StoredListIsUpstreams(states: seq<Shared>, steps: seq<Step>, i: nat)
    requires IsRun(states, steps) && i < |states| && states[i].cache.models.Some?
    ensures FitToStore(states[i].cache.models.value)
    ensures FromUpstream(states[i].cache.models.value, states[i].heard)
  {
    AlwaysOk(states, steps, i);
    var s := states[i];
    assert FromUpstream(s.stores[|s.stores| - 1].list, s.heard);
  }

  // ---------------------------------------------------------------- freshness

  /** The list was handed to the cache by the store `last` itself, or more than a lifetime before it. */
  ghost predicate Dated(h: Heard, last: Stored, ttl: int) {
    (last.fetched && h.at == last.at) || h.at + ttl < last.at
  }

  /** Every list with a name in it is dated by the last store, which kept the one it came from. */
  ghost predicate HeardOk(s: Shared) {
    && (forall i :: 0 <= i < |s.heard| && Cleaned(s.heard[i].ids) != [] ==>
          s.stores != [] && Dated(s.heard[i], s.stores[|s.stores| - 1], s.ttl))
    && (s.stores != [] && s.stores[|s.stores| - 1].fetched ==>
          exists i :: 0 <= i < |s.heard| && s.heard[i].at == s.stores[|s.stores| - 1].at
                      && Cleaned(s.heard[i].ids) == s.stores[|s.stores| - 1].list)
  }

  lemma ReturnKeepsHeard(s: Shared, q: CallerId, f: Fetched)
    requires Enabled(s, Return(q, f)) && s.ttl > 0
    requires LockOk(s) && StoresOk(s) && FetchesStale(s) && HeardOk(s)
    ensures HeardOk(Next(s, Return(q, f)))
  {
    var t := Next(s, Return(q, f));
    FetchEffects(s.cache, f, s.clock);
    assert forall i :: 0 <= i < |s.heard| ==> t.heard[i] == s.heard[i];
    if Stores(s.cache, f) {
      var last := t.stores[|s.stores|];
      assert forall i :: 0 <= i < |s.heard| && Cleaned(s.heard[i].ids) != [] ==> s.heard[i].at + s.ttl < last.at;
      if f.Listing? {
        assert t.heard[|s.heard|] == Heard(s.clock, f.ids);
      }
    }
  }

  lemma {:induction false} HeardAlwaysOk(states: seq<Shared>, steps: seq<Step>, i: nat)
    requires IsRun(states, steps) && i < |states|
    ensures HeardOk(states[i])
  {
    if i > 0 {
      HeardAlwaysOk(states, steps, i - 1);
      AlwaysOk(states, steps, i - 1);
      assert StepAt(states, steps, i - 1);
      if steps[i - 1].Return? {
        ReturnKeepsHeard(states[i - 1], steps[i - 1].q, steps[i - 1].f);
      }
    }
  }

  /** Upstream gave the cached list, as some fetch handed it over, at most a lifetime ago. */
  ghost predicate FetchedWithinLifetime(s: Shared) {
    exists i :: 0 <= i < |s.heard| && Cleaned(s.heard[i].ids) == Known(s.cache) && s.clock - s.heard[i].at <= s.ttl
  }

  /**
    "A fresh list came from upstream within the lifetime" holds, in any run and whenever
    the cache is fresh, exactly when the last store was of a fetched list and not of the
    stale one standing in for a failed request.
   */
  lemma FreshFromUpstreamIff(states: seq<Shared>, steps: seq<Step>, i: nat)
    requires IsRun(states, steps) && i < |states|
    requires Fresh(states[i].cache, states[i].ttl, states[i].clock)
    ensures states[i].stores != []
    ensures FetchedWithinLifetime(states[i]) <==> states[i].stores[|states[i].stores| - 1].fetched
  {
    AlwaysOk(states, steps, i);
    HeardAlwaysOk(states, steps, i);
  }

  // ------------------------------------------------------------ single flight

  /** A caller that finds the list fresh has it at once, whoever holds the lock; else it has to queue. */
  lemma LookAnswers(s: Shared, q: CallerId)
    requires Enabled(s, Look(q))
    ensures var young := s.cache.models.Some? && s.cache.models.value != [] && s.clock - s.cache.lastRefresh <= s.ttl;
      Next(s, Look(q)) == s.(callers := s.callers[q := if young then Answered(s.cache.models.value) else Queued])
  {
  }

  /**
    The caller that fetched is answered with what it fetched, cleaned, if there is a name in
    it, and else with what the cache knew before; the lock is free again, and nobody else is
    answered.
   */
  lemma ReturnAnswers(s: Shared, q: CallerId, f: Fetched)
    requires Enabled(s, Return(q, f)) && LockOk(s) && StoresOk(s)
    ensures var t := Next(s, Return(q, f));
      var listed := f.Listing? && exists text :: text != "" && Name(text) in f.ids;
      && t.lock == None && t.clock == s.clock
      && t.callers == s.callers[q := Answered(
           if listed then Cleaned(f.ids) else if s.cache.models.Some? then s.cache.models.value else [])]
  {
    FetchEffects(s.cache, f, s.clock);
    if f.Listing? {
      CleanedExact(f.ids);
      assert Cleaned(f.ids) != [] ==> Cleaned(f.ids)[0] in Cleaned(f.ids);
    }
  }

  /** A cancelled caller is gone, and gives the lock back if it has it; time changes nothing but the clock. */
  lemma CancelAndTick(s: Shared, q: CallerId, passed: nat)
    requires LockOk(s)
    ensures Enabled(s, Cancel(q)) ==>
      var t := Next(s, Cancel(q));
      && t.callers == s.callers[q := Broken] && t.cache == s.cache
      && (s.callers[q] == Fetching ==> t.lock == None) && (s.callers[q] != Fetching ==> t.lock == s.lock)
    ensures Next(s, Tick(passed)).clock - s.clock == passed
    ensures Next(s, Tick(passed)) == s.(clock := Next(s, Tick(passed)).clock)
  {
  }

  /** Nobody fetches, and the cache is what it was. */
  ghost predicate Quiet(s: Shared, cache: Cache, stores: seq<Stored>) {
    s.cache == cache && s.stores == stores && s.lock == None && LockOk(s)
  }

  /** Callers that have been answered since `before` got the cached list. */
  ghost predicate AnsweredSince(before: Shared, s: Shared) {
    forall q :: q in s.callers && s.callers[q].Answered? && !(q in before.callers && before.callers[q].Answered?)
      ==> s.callers[q].list == Known(before.cache)
  }

  lemma {:induction false} QuietWhileFresh(states: seq<Shared>, steps: seq<Step>, i: nat, j: nat)
    requires IsRun(states, steps) && i <= j < |states|
    requires states[i].lock == None && states[i].cache.models.Some? && states[i].cache.models.value != []
    requires states[j].clock - states[i].cache.lastRefresh <= states[0].ttl
    ensures Quiet(states[j], states[i].cache, states[i].stores)
    ensures AnsweredSince(states[i], states[j])
  {
    AlwaysOk(states, steps, i);
    if i < j {
      assert StepAt(states, steps, j - 1);
      var s, t := states[j - 1], states[j];
      assert s.clock <= t.clock;
      QuietWhileFresh(states, steps, i, j - 1);
      AlwaysOk(states, steps, j - 1);
      AlwaysOk(states, steps, j);
      assert Fresh(s.cache, s.ttl, s.clock);
      assert forall q :: q in s.callers ==> s.callers[q] != Fetching;
    }
  }

  /**
    Single flight: from a store until the lifetime has run nobody fetches, the cache does
    not change, and every caller answered in that time, including all who were queueing
    while the fetch was out, gets the stored list.
   */
  lemma SingleFlight(states: seq<Shared>, steps: seq<Step>, i: nat, j: nat)
    requires IsRun(states, steps) && i < j < |states|
    requires steps[i].Return? && Enabled(states[i], steps[i]) && Stores(states[i].cache, steps[i].f)
    requires states[j].clock - states[i].clock <= states[0].ttl
    ensures states[j].stores
         == states[i].stores + [Stored(states[i].clock, Known(states[i + 1].cache), steps[i].f.Listing?)]
    ensures states[j].cache == states[i + 1].cache
    ensures forall q :: q in states[j].callers ==> states[j].callers[q] != Fetching
    ensures AnsweredSince(states[i + 1], states[j])
  {
    assert StepAt(states, steps, i);
    AlwaysOk(states, steps, i);
    StoredFromUpstreamOrStale(states[i].cache, steps[i].f, states[i].clock);
    QuietWhileFresh(states, steps, i + 1, j);
  }

  lemma StoredFromUpstreamOrStale(c: Cache, f: Fetched, now: int)
    requires Stores(c, f)
    ensures var after := AfterFetch(c, f, now);
      after.models.Some? && after.models.value != [] && after.lastRefresh == now
  {
  }
}
