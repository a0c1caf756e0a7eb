/**
  Merging the two usage windows upstream reports, session then weekly, into one row per
  model.  Numbers are cut to whole ones towards zero; an infinite one or a NaN cannot be.
 */
module UsageMerge {
  import opened KeyRows
  import opened Classifiers
  import opened ModelCaching

  /**
    A number as it stands when it is cut.  A usage is first made a float, which rounds large
    integers and fails on those no float can hold: they are `NotFinite` too.
   */
  datatype Number = Numeric(value: real) | NotFinite | NotNumeric

  /** An entry of a window's model list; a name that is no string reads as missing. */
  datatype Entry = Entry(name: Option<string>, count: Number) | NotAnObject

  /** The window object: its usage, if given, and its models; or no object at all. */
  datatype Report = Block(usage: Option<Number>, models: seq<Entry>) | NoBlock

  datatype ModelUsage = ModelUsage(name: string, session: int, weekly: int)

  datatype Official = Official(
    sessionUsage: int, weeklyUsage: int,
    sessionFraction: Option<real>, weeklyFraction: Option<real>,
    models: seq<ModelUsage>)

  // ------------------------------------------------------------ specification

  function ItemOf(e: Entry): Item {
    if e.Entry? && e.name.Some? then Name(e.name.value) else Junk
  }

  function ItemsOf(entries: seq<Entry>): seq<Item> {
    seq(|entries|, i requires 0 <= i < |entries| => ItemOf(entries[i]))
  }

  function Whole(count: Number): int {
    if count.Numeric? then Truncate(count.value) else 0
  }

  predicate IsFor(e: Entry, name: string) {
    e.Entry? && e.name == Some(name)
  }

  /** A number cut towards zero. */
  ghost predicate IsCut(x: real, n: int) {
    if x >= 0.0 then 0 <= n && n as real <= x < (n + 1) as real
    else n <= 0 && (n - 1) as real < x <= n as real
  }

  /** What counts as the count given: a number cut, and 0 for what is no number. */
  ghost predicate CountIs(given: Number, n: int) {
    if given.Numeric? then IsCut(given.value, n) else n == 0
  }

  /** The count of the last entry for a name, 0 if it has none. */
  function LastCount(entries: seq<Entry>, name: string): int {
    if entries == [] then 0
    else if IsFor(entries[|entries| - 1], name) then Whole(entries[|entries| - 1].count)
    else LastCount(entries[..|entries| - 1], name)
  }

  lemma {:induction false} LastCountExact(entries: seq<Entry>, name: string) returns (i: int)
    ensures -1 <= i < |entries|
    ensures forall j :: i < j < |entries| ==> !IsFor(entries[j], name)
    ensures i == -1 ==> LastCount(entries, name) == 0
    ensures i >= 0 ==> IsFor(entries[i], name) && CountIs(entries[i].count, LastCount(entries, name))
  {
    if entries == [] {
      i := -1;
    } else if IsFor(entries[|entries| - 1], name) {
      i := |entries| - 1;
      WholeIsCut(entries[i].count);
    } else {
      i := LastCountExact(entries[..|entries| - 1], name);
    }
  }

  lemma WholeIsCut(given: Number)
    ensures CountIs(given, Whole(given))
  {
    if given.Numeric? {
      TruncateMeaning(given.value);
    }
  }

  /** The usage of a window, as given and cut; without a number there is none, and it counts 0. */
  ghost predicate UsageIs(r: Report, usage: int, fraction: Option<real>) {
    if r.Block? && r.usage.Some? && r.usage.value.Numeric?
    then fraction == Some(r.usage.value.value) && IsCut(r.usage.value.value, usage)
    else fraction == None && usage == 0
  }

  function ModelsOf(r: Report): seq<Entry> {
    if r.Block? then r.models else []
  }

  /** An entry that is counted although its count cannot be cut to a whole number. */
  predicate Raises(e: Entry) {
    e.Entry? && e.name.Some? && e.name.value != "" && e.count.NotFinite?
  }

  ghost predicate SomeRaises(entries: seq<Entry>) {
    exists i :: 0 <= i < |entries| && Raises(entries[i])
  }

  /** Reading the window raises an error. */
  ghost predicate Unreadable(r: Report) {
    r.Block? && (r.usage == Some(NotFinite) || SomeRaises(r.models))
  }

  ghost predicate IsMerge(models: seq<ModelUsage>, session: seq<Entry>, weekly: seq<Entry>) {
    && |models| == |Cleaned(ItemsOf(session) + ItemsOf(weekly))|
    && forall i :: 0 <= i < |models| ==>
         var name := Cleaned(ItemsOf(session) + ItemsOf(weekly))[i];
         models[i] == ModelUsage(name, LastCount(session, name), LastCount(weekly, name))
  }

  // ----------------------------------------------------------------- the loop

  /** The insertion-ordered dictionary the parser fills. */
  datatype Rows = Rows(order: seq<string>, byName: map<string, ModelUsage>)

  ghost predicate Lists(rows: Rows, items: seq<Item>) {
    rows.order == Cleaned(items) && forall name :: name in rows.byName <==> name in rows.order
  }

  ghost predicate Counts(rows: Rows, session: seq<Entry>, weekly: seq<Entry>) {
    forall name :: name in rows.byName ==>
      rows.byName[name] == ModelUsage(name, LastCount(session, name), LastCount(weekly, name))
  }

  ghost predicate Merged(rows: Rows, session: seq<Entry>, weekly: seq<Entry>) {
    Lists(rows, ItemsOf(session) + ItemsOf(weekly)) && Counts(rows, session, weekly)
  }

  /** Setting one count of a row, which is created at the end if the name is new. */
  function Put(rows: Rows, e: Entry, weekly: bool): Rows {
    if !e.Entry? || e.name.None? || e.name.value == "" then rows else
    var name := e.name.value;
    var row := if name in rows.byName then rows.byName[name] else ModelUsage(name, 0, 0);
    var updated := if weekly then row.(weekly := Whole(e.count)) else row.(session := Whole(e.count));
    Rows(if name in rows.byName then rows.order else rows.order + [name], rows.byName[name := updated])
  }

  lemma ItemsNext(a: seq<Entry>, e: Entry)
    ensures ItemsOf(a + [e]) == ItemsOf(a) + [ItemOf(e)]
  {
  }

  lemma CleanedNext(items: seq<Item>, item: Item)
    ensures Cleaned(items + [item])
         == if Keeps(item, Cleaned(items)) then Cleaned(items) + [item.text] else Cleaned(items)
  {
    assert (items + [item])[..|items|] == items;
  }

  lemma LastCountNext(entries: seq<Entry>, e: Entry, name: string)
    ensures LastCount(entries + [e], name) == if IsFor(e, name) then Whole(e.count) else LastCount(entries, name)
  {
    assert (entries + [e])[..|entries|] == entries;
  }

  /** A name that is not listed has no entry, so both its counts are 0. */
  lemma {:induction false} AbsentCounts(entries: seq<Entry>, name: string)
    requires Name(name) !in ItemsOf(entries)
    ensures LastCount(entries, name) == 0
  {
    forall j | 0 <= j < |entries| ensures !IsFor(entries[j], name) {
      assert ItemsOf(entries)[j] == ItemOf(entries[j]) && ItemsOf(entries)[j] in ItemsOf(entries);
    }
    var _ := LastCountExact(entries, name);
  }

  lemma UnlistedCounts(session: seq<Entry>, weekly: seq<Entry>, name: string)
    requires name != "" && name !in Cleaned(ItemsOf(session) + ItemsOf(weekly))
    ensures LastCount(session, name) == 0 && LastCount(weekly, name) == 0
  {
    var items := ItemsOf(session) + ItemsOf(weekly);
    CleanedExact(items);
    assert forall x :: x in ItemsOf(session) || x in ItemsOf(weekly) ==> x in items;
    AbsentCounts(session, name);
    AbsentCounts(weekly, name);
  }

  lemma PutLists(rows: Rows, items: seq<Item>, e: Entry, weekly: bool)
    requires Lists(rows, items)
    ensures Lists(Put(rows, e, weekly), items + [ItemOf(e)])
  {
    CleanedNext(items, ItemOf(e));
  }

  lemma PutCounts(rows: Rows, session: seq<Entry>, weekly: seq<Entry>, e: Entry, inWeekly: bool)
    requires Merged(rows, session, weekly)
    ensures if inWeekly then Counts(Put(rows, e, true), session, weekly + [e])
            else Counts(Put(rows, e, false), session + [e], weekly)
  {
    var after := Put(rows, e, inWeekly);
    CleanedExact(ItemsOf(session) + ItemsOf(weekly));
    forall name | name in after.byName
      ensures after.byName[name] == if inWeekly
        then ModelUsage(name, LastCount(session, name), LastCount(weekly + [e], name))
        else ModelUsage(name, LastCount(session + [e], name), LastCount(weekly, name))
    {
      LastCountNext(weekly, e, name);
      LastCountNext(session, e, name);
      if name !in rows.byName {
        UnlistedCounts(session, weekly, name);
      }
    }
  }

  /** One entry more in the window being read. */
  lemma PutMerges(rows: Rows, session: seq<Entry>, weekly: seq<Entry>, e: Entry, inWeekly: bool)
    requires Merged(rows, session, weekly) && (inWeekly || weekly == [])
    ensures if inWeekly then Merged(Put(rows, e, true), session, weekly + [e])
            else Merged(Put(rows, e, false), session + [e], [])
  {
    var items := ItemsOf(session) + ItemsOf(weekly);
    PutLists(rows, items, e, inWeekly);
    PutCounts(rows, session, weekly, e, inWeekly);
    if inWeekly {
      ItemsNext(weekly, e);
      assert ItemsOf(session) + ItemsOf(weekly + [e]) == items + [ItemOf(e)];
    } else {
      ItemsNext(session, e);
      assert ItemsOf(session + [e]) + ItemsOf([]) == items + [ItemOf(e)];
    }
  }

  /** Read one window's entries into the rows, or raise an error. */
  method ReadWindow(rows: Rows, entries: seq<Entry>, weekly: bool, ghost session: seq<Entry>)
    returns (filled: Option<Rows>)
    requires Merged(rows, session, [])
    requires !weekly ==> session == []
    ensures filled.None? <==> SomeRaises(entries)
    ensures filled.Some? ==>
      if weekly then Merged(filled.value, session, entries) else Merged(filled.value, entries, [])
  {
    var now := rows;
    for i := 0 to |entries|
      invariant if weekly then Merged(now, session, entries[..i]) else Merged(now, entries[..i], [])
      invariant forall j :: 0 <= j < i ==> !Raises(entries[j])
    {
      assert entries[..i + 1] == entries[..i] + [entries[i]];
      PutMerges(now, if weekly then session else entries[..i], if weekly then entries[..i] else [],
                entries[i], weekly);
      var e := entries[i];
      if e.NotAnObject? || e.name.None? || e.name.value == "" {
        continue;
      }
      if e.count.NotFinite? {
        return None;
      }
      var name := e.name.value;
      var count := if e.count.Numeric? then Truncate(e.count.value) else 0;
      var row := if name in now.byName then now.byName[name] else ModelUsage(name, 0, 0);
      row := if weekly then row.(weekly := count) else row.(session := count);
      var order := if name in now.byName then now.order else now.order + [name];
      now := Rows(order, now.byName[name := row]);
    }
    assert entries[..|entries|] == entries;
    filled := Some(now);
  }

  /** The usage of a window, cut and as given; `None` if cutting it raises an error. */
  method ReadUsage(r: Report) returns (usage: Option<(int, Option<real>)>)
    ensures usage.None? <==> r.Block? && r.usage == Some(NotFinite)
    ensures usage.Some? ==> UsageIs(r, usage.value.0, usage.value.1)
  {
    if r.NoBlock? || r.usage.None? {
      return Some((0, None));
    }
    match r.usage.value
    case Numeric(x) =>
      TruncateMeaning(x);
      usage := Some((Truncate(x), Some(x)));
    case NotFinite => usage := None;
    case NotNumeric => usage := Some((0, None));
  }

  /** The rows in the order of the dictionary. */
  function RowsInOrder(rows: Rows): seq<ModelUsage>
    requires forall i :: 0 <= i < |rows.order| ==> rows.order[i] in rows.byName
  {
    seq(|rows.order|, i requires 0 <= i < |rows.order| => rows.byName[rows.order[i]])
  }

  lemma MergedListed(rows: Rows, session: seq<Entry>, weekly: seq<Entry>)
    requires Merged(rows, session, weekly)
    ensures forall i :: 0 <= i < |rows.order| ==> rows.order[i] in rows.byName
    ensures IsMerge(RowsInOrder(rows), session, weekly)
    ensures forall i, j :: 0 <= i < j < |rows.order| ==> RowsInOrder(rows)[i].name != RowsInOrder(rows)[j].name
  {
    CleanedExact(ItemsOf(session) + ItemsOf(weekly));
    assert forall i :: 0 <= i < |rows.order| ==> rows.order[i] in rows.order;
  }

  /**
    The merged report: one row per model, in order of first appearance with the session
    window before the weekly one, each count the last one given for that model in that
    window, 0 if there is none or it is no number.  There is none exactly if a usage or the
    count of a named entry, even one overwritten later, is infinite or NaN.
   */
  method ParseOfficial(session: Report, weekly: Report) returns (official: Option<Official>)
    ensures official.None? <==> Unreadable(session) || Unreadable(weekly)
    ensures official.Some? ==>
      var o := official.value;
      && IsMerge(o.models, ModelsOf(session), ModelsOf(weekly))
      && UsageIs(session, o.sessionUsage, o.sessionFraction) && UsageIs(weekly, o.weeklyUsage, o.weeklyFraction)
      && forall i, j :: 0 <= i < j < |o.models| ==> o.models[i].name != o.models[j].name
  {
    assert ItemsOf([]) + ItemsOf([]) == [];
    var used := ReadUsage(session);
    if used.None? {
      return None;
    }
    var rows := ReadWindow(Rows([], map[]), ModelsOf(session), false, []);
    if rows.None? {
      return None;
    }
    var usedWeekly := ReadUsage(weekly);
    if usedWeekly.None? {
      return None;
    }
    rows := ReadWindow(rows.value, ModelsOf(weekly), true, ModelsOf(session));
    if rows.None? {
      return None;
    }
    MergedListed(rows.value, ModelsOf(session), ModelsOf(weekly));
    official := Some(Official(used.value.0, usedWeekly.value.0, used.value.1, usedWeekly.value.1,
                              RowsInOrder(rows.value)));
  }
}
