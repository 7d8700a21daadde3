/** The record flattener of the ReliefWeb scraper: _flatten_data and its inner
    recursive routine, which write every leaf of a nested record into one shared,
    insertion-ordered accumulator under a "-"-joined key and merge the
    elements of a list under their parent's key.

    The accumulator (flat_dict, shared by the whole recursion) is threaded
    through the methods: each method receives the accumulator and returns it
    updated. Each method is proved against a function that states the same
    computation as a left fold; the properties of the flattening are proved
    about those functions in modules FlattenNested, FlattenOrder,
    FlattenScalarList and FlattenDictList. */
module Flatten {
  import opened Wrappers
  import opened PyJson
  import opened OrderedDict

  /** The flat row: each composite key maps to a leaf value, unchanged, or to
      the ", "-joined string of a list's values. */
  type FlatDict = Dict<Scalar>

  /** The per-list table list_items: for each sub-key, the values collected
      from the list's elements. */
  type ListItems = Dict<seq<Scalar>>

  /** The key of a child: f"{parent_key}{sep}{key}" if parent_key else key. */
  function ChildKey(parent: string, sep: string, key: string): string
  {
    if parent != "" then parent + sep + key else key
  }

  /** k.startswith(root) */
  predicate HasPrefix(k: string, root: string)
  {
    |root| <= |k| && k[..|root|] == root
  }

  // ---------------------------------------------------------------------
  // The computation, as functions
  // ---------------------------------------------------------------------

  /** The accumulator after _flatten_inner(item, parent) has run on flat. */
  function Inner(item: Json, parent: string, sep: string, flat: FlatDict): FlatDict
    decreases item, 2
  {
    match item
    case Leaf(v) => Set(flat, parent, v)
    case Obj(ms) => InnerMembers(item, |ms|, parent, sep, flat)
    case Arr(es) =>
      var (f, items) := InnerElems(item, |es|, parent, sep, flat);
      Emit(items, parent, sep, f)
  }

  /** The accumulator after the first n members of a dict have been flattened. */
  function InnerMembers(item: Json, n: nat, parent: string, sep: string, flat: FlatDict): FlatDict
    requires item.Obj? && n <= |item.members|
    decreases item, 1, n
  {
    if n == 0 then flat
    else
      var f := InnerMembers(item, n - 1, parent, sep, flat);
      Inner(item.members[n - 1].1, ChildKey(parent, sep, item.members[n - 1].0), sep, f)
  }

  /** The accumulator and list_items after the first n elements of a list. A
      dict element is flattened under the list's own key, and then every entry
      of the accumulator under parent + sep is collected again; any other
      element is collected, as str(), under the parent key itself. */
  function InnerElems(item: Json, n: nat, parent: string, sep: string, flat: FlatDict): (FlatDict, ListItems)
    requires item.Arr? && n <= |item.elems|
    decreases item, 1, n
  {
    if n == 0 then (flat, [])
    else
      var (f, items) := InnerElems(item, n - 1, parent, sep, flat);
      var e := item.elems[n - 1];
      if e.Obj? then
        var f' := Inner(e, parent, sep, f);
        (f', Collect(items, Scan(f', parent + sep)))
      else
        (f, Append(items, parent, JStr(Str(e))))
  }

  /** flattened_dict: every entry of the accumulator whose key starts with
      root, under the rest of its key, in the accumulator's order. */
  function Scan(flat: FlatDict, root: string): FlatDict
  {
    if flat == [] then []
    else
      var acc := Scan(flat[..|flat| - 1], root);
      var (k, v) := flat[|flat| - 1];
      if HasPrefix(k, root) then Set(acc, k[|root|..], v) else acc
  }

  /** list_items.setdefault(k, []).append(v) */
  function Append(items: ListItems, k: string, v: Scalar): ListItems
  {
    Set(items, k, (if Get(items, k).Some? then Get(items, k).value else []) + [v])
  }

  /** Appends each value of flattened_dict to list_items under its key, in order. */
  function Collect(items: ListItems, flattened: FlatDict): ListItems
  {
    if flattened == [] then items
    else
      var (k, v) := flattened[|flattened| - 1];
      Append(Collect(items, flattened[..|flattened| - 1]), k, v)
  }

  /** Writes parent + sep + k -> ", ".join(map(str, values)) for each entry of
      list_items, in order. */
  function Emit(items: ListItems, parent: string, sep: string, flat: FlatDict): FlatDict
  {
    if items == [] then flat
    else
      var (k, vs) := items[|items| - 1];
      Set(Emit(items[..|items| - 1], parent, sep, flat), parent + sep + k, JStr(JoinShown(vs)))
  }

  /** _flatten_data(data, sep): the flattening of a whole record. */
  function FlattenData(data: Json, sep: string): FlatDict
  {
    Inner(data, "", sep, [])
  }

  // ---------------------------------------------------------------------
  // The computation, step by step
  // ---------------------------------------------------------------------

  /** Builds flattened_dict from the accumulator. */
  method CollectPrefixed(flat: FlatDict, root: string) returns (flattened: FlatDict)
    ensures flattened == Scan(flat, root)
  {
    flattened := [];
    var i := 0;
    while i < |flat|
      invariant 0 <= i <= |flat|
      invariant flattened == Scan(flat[..i], root)
    {
      var (k, v) := flat[i];
      assert flat[..i + 1][..i] == flat[..i];
      if HasPrefix(k, root) {
        flattened := Set(flattened, k[|root|..], v);
      }
      i := i + 1;
    }
    assert flat[..i] == flat;
  }

  /** Appends the values of flattened_dict to list_items. */
  method AppendCollected(items: ListItems, flattened: FlatDict) returns (items': ListItems)
    ensures items' == Collect(items, flattened)
  {
    items' := items;
    var i := 0;
    while i < |flattened|
      invariant 0 <= i <= |flattened|
      invariant items' == Collect(items, flattened[..i])
    {
      var (k, v) := flattened[i];
      assert flattened[..i + 1][..i] == flattened[..i];
      assert Collect(items, flattened[..i + 1]) == Append(Collect(items, flattened[..i]), k, v);
      ghost var before := items';
      var present := Get(items', k);
      if present.None? {
        SetSpec(items', k, []);
        items' := Set(items', k, []);
      }
      items' := Set(items', k, Get(items', k).value + [v]);
      if present.None? {
        assert [] + [v] == [v];
        SetOverwrite(before, k, [], [v]);
      }
      i := i + 1;
    }
    assert flattened[..i] == flattened;
  }

  /** Writes the joined values of list_items into the accumulator. */
  method EmitJoined(items: ListItems, parent: string, sep: string, flat: FlatDict) returns (flat': FlatDict)
    ensures flat' == Emit(items, parent, sep, flat)
  {
    flat' := flat;
    var i := 0;
    while i < |items|
      invariant 0 <= i <= |items|
      invariant flat' == Emit(items[..i], parent, sep, flat)
    {
      var (k, vs) := items[i];
      assert items[..i + 1][..i] == items[..i];
      flat' := Set(flat', parent + sep + k, JStr(JoinShown(vs)));
      i := i + 1;
    }
    assert items[..i] == items;
  }

  /** _flatten_inner(item, parent_key), on the accumulator flat. */
  method FlattenInner(item: Json, parent: string, sep: string, flat: FlatDict) returns (out: FlatDict)
    ensures out == Inner(item, parent, sep, flat)
    decreases item
  {
    match item
    case Obj(ms) =>
      out := flat;
      var i := 0;
      while i < |ms|
        invariant 0 <= i <= |ms|
        invariant out == InnerMembers(item, i, parent, sep, flat)
      {
        var (key, value) := ms[i];
        out := FlattenInner(value, ChildKey(parent, sep, key), sep, out);
        i := i + 1;
      }
    case Arr(es) =>
      out := flat;
      var items: ListItems := [];
      var i := 0;
      while i < |es|
        invariant 0 <= i <= |es|
        invariant (out, items) == InnerElems(item, i, parent, sep, flat)
      {
        var e := es[i];
        if e.Obj? {
          out := FlattenInner(e, parent, sep, out);
          var flattened := CollectPrefixed(out, parent + sep);
          items := AppendCollected(items, flattened);
        } else {
          items := Append(items, parent, JStr(Str(e)));
        }
        i := i + 1;
      }
      out := EmitJoined(items, parent, sep, out);
    case Leaf(v) =>
      out := Set(flat, parent, v);
  }

  /** _flatten_data(data, sep): a fresh accumulator, filled from the root. */
  method FlattenRecord(data: Json, sep: string) returns (flat: FlatDict)
    ensures flat == FlattenData(data, sep)
  {
    flat := FlattenInner(data, "", sep, []);
  }
}
