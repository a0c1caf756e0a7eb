/**
  Masking the fields bound to a log record: a walk over nested dictionaries and lists that
  replaces the values under forbidden keys by previews, down to three dictionaries deep.
 */
module Masking {
  import opened KeyRows
  import Redaction

  const MAX_DEPTH := 3

  /** A logged value; `shown` is how a plain one prints. */
  datatype Value =
    | Plain(shown: string)
    | Null
    | Dict(entries: seq<Entry>)
    | Items(items: seq<Value>)

  datatype Entry = Entry(key: Key, value: Value)

  /** Dictionary keys need not be strings. */
  datatype Key = Text(text: string) | NoText(id: int)

  /** A string that in lower case is one of the forbidden names; `lower` lowers the case of a string. */
  predicate Forbidden(key: Key, lower: string -> string) {
    key.Text? && lower(key.text) in Redaction.FORBIDDEN
  }

  /** What is left of a value under a forbidden key; `show` prints a value. */
  function PreviewOf(v: Value, show: Value -> string): Value {
    if v.Null? then Plain("") else Plain(Redaction.Preview(show(v)))
  }

  /** The value after the walk, for a dictionary or a list met with `depth` dictionaries around it. */
  function Masked(v: Value, depth: nat, lower: string -> string, show: Value -> string): Value
    decreases v
  {
    match v
    case Dict(entries) =>
      if depth >= MAX_DEPTH then v
      else Dict(seq(|entries|, i requires 0 <= i < |entries| => MaskedEntry(entries[i], depth, lower, show)))
    case Items(items) =>
      if depth >= MAX_DEPTH then v
      else Items(seq(|items|, i requires 0 <= i < |items| => Masked(items[i], Inner(items[i], depth), lower, show)))
    case _ => v
  }

  function MaskedEntry(e: Entry, depth: nat, lower: string -> string, show: Value -> string): Entry
    decreases e
  {
    if Forbidden(e.key, lower) then e.(value := PreviewOf(e.value, show))
    else e.(value := Masked(e.value, Inner(e.value, depth), lower, show))
  }

  /** Only a dictionary counts as one level more; a list in a list or dictionary does not. */
  function Inner(v: Value, depth: nat): nat {
    if v.Dict? then depth + 1 else depth
  }

  /** All that is left of a hidden value: at most eight characters of it as printed, or nothing. */
  predicate HiddenBy(after: Value, before: Value, show: Value -> string) {
    after.Plain? && if before.Null? then after.shown == "" else Redaction.Hides(after.shown, show(before))
  }

  // -------------------------------------------------------------------- paths

  function Children(v: Value): nat {
    match v
    case Dict(entries) => |entries|
    case Items(items) => |items|
    case _ => 0
  }

  function Child(v: Value, i: nat): Value
    requires i < Children(v)
  {
    if v.Dict? then v.entries[i].value else v.items[i]
  }

  /** The value at the end of a path of positions. */
  function Lookup(v: Value, path: seq<nat>): Option<Value> {
    if path == [] then Some(v)
    else if path[0] < Children(v) then Lookup(Child(v, path[0]), path[1..])
    else None
  }

  /** The keys whose values have to be hidden. */
  predicate Sensitive(key: Key, lower: string -> string) {
    key.Text? && lower(key.text) in
      {"key_hash", "raw_key", "api_key", "authorization", "secret", "password", "bearer"}
  }

  /** How deep along a path the first value to be replaced lies, if there is one. */
  function FirstHidden(v: Value, depth: nat, path: seq<nat>, lower: string -> string): Option<nat> {
    if path == [] || path[0] >= Children(v) || depth >= 3 then None
    else if v.Dict? && Sensitive(v.entries[path[0]].key, lower) then Some(1)
    else
      var child := Child(v, path[0]);
      match FirstHidden(child, if child.Dict? then depth + 1 else depth, path[1..], lower)
      case Some(n) => Some(n + 1)
      case None => None
  }

  /** Two values of the same kind, with the same keys or the same number of items. */
  predicate SameShape(a: Value, b: Value) {
    match (a, b)
    case (Dict(e), Dict(f)) => |e| == |f|
      && forall i :: 0 <= i < |e| ==> e[i].key == f[i].key
    case (Items(x), Items(y)) => |x| == |y|
    case _ => a == b
  }

  /**
    The walk changes exactly the values under outermost forbidden keys of dictionaries
    with fewer than three dictionaries around them.  Along any path through the value: up
    to the first such key everything is found again, with all its keys; there stands no more
    than eight characters of the old value; and a path without such a key is found again to its end.
   */
  lemma {:induction false} MasksExactly(v: Value, depth: nat, path: seq<nat>,
                                        lower: string -> string, show: Value -> string)
    requires Lookup(v, path).Some?
    ensures var hidden, after := FirstHidden(v, depth, path, lower), Masked(v, depth, lower, show);
      && (hidden == None ==>
            && Lookup(after, path).Some?
            && SameShape(Lookup(after, path).value, Lookup(v, path).value))
      && (hidden != None ==>
            && 0 < hidden.value <= |path|
            && Lookup(v, path[..hidden.value]).Some?
            && Lookup(after, path[..hidden.value]).Some?
            && HiddenBy(Lookup(after, path[..hidden.value]).value, Lookup(v, path[..hidden.value]).value, show))
    decreases |path|
  {
    var after := Masked(v, depth, lower, show);
    if path != [] && depth < MAX_DEPTH {
      var i, child := path[0], Child(v, path[0]);
      if v.Dict? && Forbidden(v.entries[i].key, lower) {
        assert path[..1] == [i];
        assert Lookup(child, []) == Some(child);
      } else {
        assert Child(after, i) == Masked(child, Inner(child, depth), lower, show);
        MasksExactly(child, Inner(child, depth), path[1..], lower, show);
        var hidden := FirstHidden(child, Inner(child, depth), path[1..], lower);
        if hidden != None {
          assert path[..hidden.value + 1][1..] == path[1..][..hidden.value];
        }
      }
    } else if path != [] {
      DeepUntouched(v, depth, path, lower, show);
    }
  }

  lemma DeepUntouched(v: Value, depth: nat, path: seq<nat>, lower: string -> string, show: Value -> string)
    requires depth >= MAX_DEPTH && Lookup(v, path).Some?
    ensures Masked(v, depth, lower, show) == v
    ensures SameShape(Lookup(v, path).value, Lookup(v, path).value)
  {
  }

  // ----------------------------------------------------------------- the walk

  /** The walk over a dictionary, key by key. */
  method MaskDict(entries: seq<Entry>, depth: nat, lower: string -> string, show: Value -> string)
    returns (masked: seq<Entry>)
    ensures Dict(masked) == Masked(Dict(entries), depth, lower, show)
    ensures |masked| == |entries| && forall i :: 0 <= i < |entries| ==> masked[i].key == entries[i].key
    decreases Dict(entries)
  {
    if depth >= MAX_DEPTH {
      return entries;
    }
    masked := entries;
    for k := 0 to |entries|
      invariant |masked| == |entries|
      invariant forall i :: 0 <= i < k ==> masked[i] == MaskedEntry(entries[i], depth, lower, show)
      invariant forall i :: k <= i < |entries| ==> masked[i] == entries[i]
    {
      var e := entries[k];
      if Forbidden(e.key, lower) {
        masked := masked[k := e.(value := PreviewOf(e.value, show))];
        continue;
      }
      if e.value.Dict? {
        var inner := MaskDict(e.value.entries, depth + 1, lower, show);
        masked := masked[k := e.(value := Dict(inner))];
      } else if e.value.Items? {
        var inner := MaskList(e.value.items, depth, lower, show);
        masked := masked[k := e.(value := Items(inner))];
      }
    }
  }

  /** The walk over a list, which leaves the depth as it is. */
  method MaskList(items: seq<Value>, depth: nat, lower: string -> string, show: Value -> string)
    returns (masked: seq<Value>)
    ensures Items(masked) == Masked(Items(items), depth, lower, show)
    ensures |masked| == |items|
    decreases Items(items)
  {
    if depth >= MAX_DEPTH {
      return items;
    }
    masked := items;
    for k := 0 to |items|
      invariant |masked| == |items|
      invariant forall i :: 0 <= i < k ==> masked[i] == Masked(items[i], Inner(items[i], depth), lower, show)
      invariant forall i :: k <= i < |items| ==> masked[i] == items[i]
    {
      var v := items[k];
      if v.Dict? {
        var inner := MaskDict(v.entries, depth + 1, lower, show);
        masked := masked[k := Dict(inner)];
      } else if v.Items? {
        var inner := MaskList(v.items, depth, lower, show);
        masked := masked[k := Items(inner)];
      }
    }
  }
}
