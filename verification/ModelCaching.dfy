/**
  The model-list cache: one list with the instant it was stored, refreshed by one caller
  at a time, and filled by a fetcher that falls back on the stale list when upstream fails.
 */
module ModelCaching {
  import opened KeyRows
  import opened Sequences
  import opened Rotating

  // ----------------------------------------------------------------- cleaning

  /** An element of a fetched list: a string, or something else. */
  datatype Item = Name(text: string) | Junk

  predicate Keeps(item: Item, kept: seq<string>) {
    item.Name? && item.text != "" && item.text !in kept
  }

  /** Strings only, no empty ones, and of equal ones the first. */
  function Cleaned(items: seq<Item>): seq<string> {
    if items == [] then [] else
    var kept, last := Cleaned(items[..|items| - 1]), items[|items| - 1];
    if Keeps(last, kept) then kept + [last.text] else kept
  }

  function AsItems(names: seq<string>): seq<Item> {
    seq(|names|, i requires 0 <= i < |names| => Name(names[i]))
  }

  /** A list fit to be stored: not empty, no duplicates, no empty names. */
  ghost predicate FitToStore(names: seq<string>) {
    names != [] && Distinct(names) && "" !in names
  }

  ghost predicate FirstAt(items: seq<Item>, i: nat, text: string) {
    i < |items| && items[i] == Name(text) && Name(text) !in items[..i]
  }

  /**
    Cleaning keeps exactly the non-empty names, each once, in the order in which they
    first appear.
   */
  lemma {:induction false} CleanedExact(items: seq<Item>)
    ensures Distinct(Cleaned(items)) && "" !in Cleaned(items)
    ensures forall text :: text in Cleaned(items) <==> text != "" && Name(text) in items
  {
    if items != [] {
      CleanedExact(items[..|items| - 1]);
      assert items == items[..|items| - 1] + [items[|items| - 1]];
    }
  }

  lemma {:induction false} CleanedInOrder(items: seq<Item>, a: nat, b: nat) returns (i: nat, j: nat)
    requires a < b < |Cleaned(items)|
    ensures FirstAt(items, i, Cleaned(items)[a]) && FirstAt(items, j, Cleaned(items)[b]) && i < j
  {
    var n := |items| - 1;
    var kept, last := Cleaned(items[..n]), items[n];
    if b < |kept| {
      i, j := CleanedInOrder(items[..n], a, b);
      assert items[..n][..i] == items[..i] && items[..n][..j] == items[..j];
    } else {
      CleanedExact(items[..n]);
      j := n;
      i := FirstOf(items[..n], kept[a]);
      assert items[..n][..i] == items[..i];
    }
  }

  lemma {:induction false} FirstOf(items: seq<Item>, text: string) returns (i: nat)
    requires Name(text) in items
    ensures FirstAt(items, i, text)
  {
    if Name(text) in items[..|items| - 1] {
      i := FirstOf(items[..|items| - 1], text);
      assert items[..|items| - 1][..i] == items[..i];
    } else {
      i := |items| - 1;
    }
  }

  /** A list that is already clean comes back unchanged: re-storing a stale list keeps it. */
  lemma {:induction false} CleaningIdempotent(names: seq<string>)
    requires Distinct(names) && "" !in names
    ensures Cleaned(AsItems(names)) == names
  {
    if names != [] {
      var n := |names| - 1;
      CleaningIdempotent(names[..n]);
      assert AsItems(names)[..n] == AsItems(names[..n]);
      assert names == names[..n] + [names[n]];
    }
  }

  // ---------------------------------------------------------------- the cache

  datatype Cache = Cache(models: Option<seq<string>>, lastRefresh: int)

  const EMPTY := Cache(None, 0)

  /** How the fetch inside a refresh ends: an exception, a failed request, or a list. */
  datatype Fetched = Raised | Failed | Listing(ids: seq<Item>)

  predicate Fresh(c: Cache, ttl: int, now: int) {
    c.models.Some? && c.models.value != [] && now - c.lastRefresh <= ttl
  }

  function Known(c: Cache): seq<string> {
    if c.models.Some? then c.models.value else []
  }

  /** What the fetcher hands to the cache: the stale list stands in for a failed request. */
  function Offered(c: Cache, f: Fetched): Option<seq<Item>> {
    match f
    case Raised => None
    case Failed => Some(AsItems(Known(c)))
    case Listing(ids) => Some(ids)
  }

  function AfterFetch(c: Cache, f: Fetched, now: int): Cache {
    match Offered(c, f)
    case None => c
    case Some(items) => if Cleaned(items) == [] then c else Cache(Some(Cleaned(items)), now)
  }

  predicate Stores(c: Cache, f: Fetched) {
    Offered(c, f).Some? && Cleaned(Offered(c, f).value) != []
  }

  /** The upstream request: any outcome is possible, and `told` remembers it. */
  class ModelSource {
    ghost var told: seq<Fetched>

    constructor ()
      ensures told == []
    {
      told := [];
    }

    method List() returns (f: Fetched)
      modifies this
      ensures told == old(told) + [f]
    {
      f := *;
      told := told + [f];
    }
  }

  class ModelCache {
    const ttl: int
    var models: Option<seq<string>>
    var lastRefresh: int

    ghost function State(): Cache
      reads this
    {
      Cache(models, lastRefresh)
    }

    constructor (ttlSeconds: int)
      ensures State() == EMPTY && ttl == Max(1, ttlSeconds) * SECOND
      ensures ttl == if ttlSeconds < 1 then 1_000_000 else ttlSeconds * 1_000_000
    {
      ttl := Max(1, ttlSeconds) * SECOND;
      models := None;
      lastRefresh := 0;
    }

    /** A fresh list, or nothing. */
    method Get(clock: Clock) returns (list: Option<seq<string>>)
      modifies clock
      ensures list.Some? <==> Fresh(State(), ttl, clock.now)
      ensures list.Some? ==> list == models
    {
      if models == None || models.value == [] {
        return None;
      }
      var now := clock.Read();
      list := if now - lastRefresh > ttl then None else models;
    }

    method GetStale() returns (list: Option<seq<string>>)
      ensures list == models
    {
      list := models;
    }

    /**
      Refresh under the lock.  A fresh cache is returned without a fetch.  Otherwise one
      fetch decides: a list with a name in it is cleaned and stored, and anything else
      leaves the cache alone.  The caller gets what the cache then knows.
     */
    method Refresh(source: ModelSource, clock: Clock) returns (list: seq<string>, ghost fetched: Option<Fetched>)
      modifies this, source, clock
      ensures source.told == old(source.told) + if fetched.Some? then [fetched.value] else []
      ensures list == Known(State())
      ensures fetched.None? ==> State() == old(State()) && Fresh(State(), ttl, clock.now)
      ensures fetched.Some? ==> State() == AfterFetch(old(State()), fetched.value, lastRefresh)
      ensures fetched.Some? ==> (lastRefresh == clock.now || State() == old(State()))
      ensures old(Fresh(State(), ttl, clock.now)) && fetched.Some? ==> clock.now - old(lastRefresh) > ttl
    {
      if models.Some? && models.value != [] {
        var now := clock.Read();
        if now - lastRefresh <= ttl {
          return models.value, None;
        }
      }
      var outcome := source.List();
      fetched := Some(outcome);
      if outcome.Raised? {
        return Known(Cache(models, lastRefresh)), fetched;
      }
      var stale := GetStale();
      var items := if outcome.Listing? then outcome.ids
                   else if stale.Some? then AsItems(stale.value) else [];
      var cleaned := Clean(items);
      if cleaned == [] {
        return Known(Cache(models, lastRefresh)), fetched;
      }
      models := Some(cleaned);
      lastRefresh := clock.Read();
      list := cleaned;
    }

    method Reset()
      modifies this
      ensures State() == EMPTY
    {
      models, lastRefresh := None, 0;
    }
  }

  /** The cleaning loop, with the set of names already seen. */
  method Clean(items: seq<Item>) returns (cleaned: seq<string>)
    ensures cleaned == Cleaned(items)
    ensures Distinct(cleaned) && forall text :: text in cleaned <==> text != "" && Name(text) in items
  {
    var seen: set<string> := {};
    cleaned := [];
    for i := 0 to |items|
      invariant cleaned == Cleaned(items[..i])
      invariant forall text :: text in seen <==> text in cleaned
    {
      assert items[..i + 1][..i] == items[..i];
      if items[i].Name? && items[i].text != "" && items[i].text !in seen {
        seen := seen + {items[i].text};
        cleaned := cleaned + [items[i].text];
      }
    }
    assert items[..|items|] == items;
    CleanedExact(items);
  }

  // ------------------------------------------------------------ stale for long

  /** The cache after `k` failed refreshes, each the moment the list is no longer fresh. */
  ghost function AfterFailures(c: Cache, ttl: int, k: nat): Cache {
    if k == 0 then c else
    var before := AfterFailures(c, ttl, k - 1);
    AfterFetch(before, Failed, before.lastRefresh + ttl + 1)
  }

  /**
    "A fresh list was fetched within the lifetime" is false: while upstream fails, each
    refresh stores the stale list anew, so the same list is fresh however long ago
    upstream returned it.
   */
  lemma {:induction false} FailuresKeepStaleFresh(c: Cache, ttl: int, k: nat)
    requires ttl > 0 && c.models.Some? && FitToStore(c.models.value)
    ensures var later := AfterFailures(c, ttl, k);
      && later == Cache(c.models, c.lastRefresh + k * (ttl + 1))
      && Fresh(later, ttl, c.lastRefresh + k * (ttl + 1))
  {
    if k > 0 {
      FailuresKeepStaleFresh(c, ttl, k - 1);
      CleaningIdempotent(c.models.value);
      assert k * (ttl + 1) == (k - 1) * (ttl + 1) + ttl + 1;
    }
  }

  /**
    What a fetch does to the cache: a list with a name in it replaces the stored one by its
    cleaning; a failed request never changes the list, but stores it anew, with a new
    instant, exactly if there is one; an exception or a list without names changes nothing.
   */
  lemma FetchEffects(c: Cache, f: Fetched, now: int)
    requires c.models.Some? ==> FitToStore(c.models.value)
    ensures var after, listed := AfterFetch(c, f, now), f.Listing? && Cleaned(f.ids) != [];
      && (listed ==> after == Cache(Some(Cleaned(f.ids)), now))
      && (!listed ==> after.models == c.models)
      && (Stores(c, f) <==> listed || (f.Failed? && c.models.Some?))
      && (if Stores(c, f) then after.lastRefresh == now else after == c)
      && (after.models.Some? ==> FitToStore(after.models.value))
  {
    if f.Listing? {
      CleanedExact(f.ids);
    } else {
      CleaningIdempotent(Known(c));
    }
  }
}
