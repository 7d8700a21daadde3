/** What the flattener does with nested dicts: every scalar leaf is written
    once, unchanged, under the "-"-joined path of keys that leads to it, in
    depth-first order; and no write ever moves or removes a key already in
    the accumulator. */
module FlattenNested {
  import opened Wrappers
  import opened PyJson
  import opened OrderedDict
  import opened Flatten

  /** A value with no list anywhere in it. */
  predicate ListFree(j: Json)
  {
    match j
    case Leaf(_) => true
    case Arr(_) => false
    case Obj(ms) => forall m | m in ms :: ListFree(m.1)
  }

  /** The leaves of a value in depth-first order, each with the keys on its path. */
  function LeafPaths(j: Json): seq<(seq<string>, Scalar)>
    decreases j, 1
  {
    match j
    case Leaf(v) => [([], v)]
    case Arr(_) => []
    case Obj(ms) => MemberLeafPaths(j, |ms|)
  }

  /** The leaves of the first n members of a dict. */
  function MemberLeafPaths(j: Json, n: nat): seq<(seq<string>, Scalar)>
    requires j.Obj? && n <= |j.members|
    decreases j, 0, n
  {
    if n == 0 then []
    else MemberLeafPaths(j, n - 1) + UnderKey(j.members[n - 1].0, LeafPaths(j.members[n - 1].1))
  }

  /** The same leaves, one level deeper, under key k. */
  function UnderKey(k: string, paths: seq<(seq<string>, Scalar)>): seq<(seq<string>, Scalar)>
  {
    seq(|paths|, i requires 0 <= i < |paths| => ([k] + paths[i].0, paths[i].1))
  }

  /** The flat key the flattener builds for a path below parent. */
  function PathKey(parent: string, path: seq<string>, sep: string): string
    decreases path
  {
    if path == [] then parent else PathKey(ChildKey(parent, sep, path[0]), path[1..], sep)
  }

  /** The writes, key and value, that the leaves make below parent. */
  function Keyed(parent: string, paths: seq<(seq<string>, Scalar)>, sep: string): FlatDict
  {
    seq(|paths|, i requires 0 <= i < |paths| => (PathKey(parent, paths[i].0, sep), paths[i].1))
  }

  /** The accumulator after each write of W, in order. */
  function SetAll(d: FlatDict, w: FlatDict): FlatDict
  {
    if w == [] then d else Set(SetAll(d, w[..|w| - 1]), w[|w| - 1].0, w[|w| - 1].1)
  }

  lemma {:induction false} SetAllConcat(d: FlatDict, a: FlatDict, b: FlatDict)
    ensures SetAll(d, a + b) == SetAll(SetAll(d, a), b)
  {
    if b != [] {
      assert (a + b)[..|a + b| - 1] == a + b[..|b| - 1];
      SetAllConcat(d, a, b[..|b| - 1]);
    } else {
      assert a + b == a;
    }
  }

  /** Below a non-empty parent, a path's key is the parent, the separator and
      the path's keys joined with the separator. */
  lemma {:induction false} PathKeyJoin(parent: string, path: seq<string>, sep: string)
    requires parent != "" && path != []
    ensures PathKey(parent, path, sep) == parent + sep + Join(path, sep)
    decreases path
  {
    if |path| > 1 {
      PathKeyJoin(parent + sep + path[0], path[1..], sep);
      assert parent + sep + path[0] + sep + Join(path[1..], sep)
          == parent + sep + (path[0] + sep + Join(path[1..], sep));
    }
  }

  /** From the root, a path whose first key is not empty is named by its keys
      joined with the separator: {"a": {"b": 1}} gives "a-b". */
  lemma RootPathKeyJoin(path: seq<string>, sep: string)
    requires path != [] && path[0] != ""
    ensures PathKey("", path, sep) == Join(path, sep)
  {
    if |path| > 1 {
      PathKeyJoin(path[0], path[1..], sep);
    }
  }

  /** A list-free value writes each of its leaves, unchanged, under its path's
      key, in depth-first order, into the accumulator. */
  lemma {:induction false} ListFreeFlatten(j: Json, parent: string, sep: string, acc: FlatDict)
    requires ListFree(j)
    ensures Inner(j, parent, sep, acc) == SetAll(acc, Keyed(parent, LeafPaths(j), sep))
    decreases j, 1
  {
    match j
    case Leaf(v) =>
      assert SetAll(acc, Keyed(parent, LeafPaths(j), sep)) == Set(SetAll(acc, []), parent, v);
    case Obj(ms) =>
      MembersFlatten(j, |ms|, parent, sep, acc);
  }

  lemma {:induction false} MembersFlatten(j: Json, n: nat, parent: string, sep: string, acc: FlatDict)
    requires j.Obj? && n <= |j.members| && ListFree(j)
    ensures InnerMembers(j, n, parent, sep, acc) == SetAll(acc, Keyed(parent, MemberLeafPaths(j, n), sep))
    decreases j, 0, n
  {
    if n > 0 {
      var k := j.members[n - 1].0;
      var c := j.members[n - 1].1;
      var before := MemberLeafPaths(j, n - 1);
      var below := LeafPaths(c);
      var f := InnerMembers(j, n - 1, parent, sep, acc);
      assert ListFree(c) by {
        assert j.members[n - 1] in j.members;
      }
      calc {
        InnerMembers(j, n, parent, sep, acc);
        { MemberStep(j, n, parent, sep, acc); }
        Inner(c, ChildKey(parent, sep, k), sep, f);
        { ListFreeFlatten(c, ChildKey(parent, sep, k), sep, f); }
        SetAll(f, Keyed(ChildKey(parent, sep, k), below, sep));
        { MembersFlatten(j, n - 1, parent, sep, acc); }
        SetAll(SetAll(acc, Keyed(parent, before, sep)), Keyed(ChildKey(parent, sep, k), below, sep));
        { MemberWrites(acc, parent, sep, k, before, below); }
        SetAll(acc, Keyed(parent, before + UnderKey(k, below), sep));
        { MemberStep(j, n, parent, sep, acc); }
        SetAll(acc, Keyed(parent, MemberLeafPaths(j, n), sep));
      }
    }
  }

  /** The n-th member's flattening and leaves follow those of the members before it. */
  lemma MemberStep(j: Json, n: nat, parent: string, sep: string, acc: FlatDict)
    requires j.Obj? && 0 < n <= |j.members|
    ensures InnerMembers(j, n, parent, sep, acc)
         == Inner(j.members[n - 1].1, ChildKey(parent, sep, j.members[n - 1].0), sep, InnerMembers(j, n - 1, parent, sep, acc))
    ensures MemberLeafPaths(j, n)
         == MemberLeafPaths(j, n - 1) + UnderKey(j.members[n - 1].0, LeafPaths(j.members[n - 1].1))
  {
  }

  /** The writes of one more member follow the writes of the members before it. */
  lemma MemberWrites(acc: FlatDict, parent: string, sep: string, k: string,
                     before: seq<(seq<string>, Scalar)>, below: seq<(seq<string>, Scalar)>)
    ensures SetAll(SetAll(acc, Keyed(parent, before, sep)), Keyed(ChildKey(parent, sep, k), below, sep))
         == SetAll(acc, Keyed(parent, before + UnderKey(k, below), sep))
  {
    KeyedUnderKey(parent, k, below, sep);
    KeyedConcat(parent, before, UnderKey(k, below), sep);
    SetAllConcat(acc, Keyed(parent, before, sep), Keyed(parent, UnderKey(k, below), sep));
  }

  /** One level deeper under key k, the keys are those built below the child key. */
  lemma KeyedUnderKey(parent: string, k: string, below: seq<(seq<string>, Scalar)>, sep: string)
    ensures Keyed(parent, UnderKey(k, below), sep) == Keyed(ChildKey(parent, sep, k), below, sep)
  {
    forall i | 0 <= i < |below|
      ensures PathKey(parent, ([k] + below[i].0), sep) == PathKey(ChildKey(parent, sep, k), below[i].0, sep)
    {
      assert ([k] + below[i].0)[1..] == below[i].0;
    }
  }

  lemma KeyedConcat(parent: string, a: seq<(seq<string>, Scalar)>, b: seq<(seq<string>, Scalar)>, sep: string)
    ensures Keyed(parent, a + b, sep) == Keyed(parent, a, sep) + Keyed(parent, b, sep)
  {
  }

  /** Writes whose keys are distinct and new are appended in order. */
  lemma {:induction false} SetAllFresh(d: FlatDict, w: FlatDict)
    requires Distinct(d + w)
    ensures SetAll(d, w) == d + w
  {
    if w != [] {
      var w' := w[..|w| - 1];
      assert Distinct(d + w') by {
        forall a, b | 0 <= a < b < |d + w'| ensures (d + w')[a].0 != (d + w')[b].0 {
          assert (d + w')[a] == (d + w)[a] && (d + w')[b] == (d + w)[b];
        }
      }
      SetAllFresh(d, w');
      var last := w[|w| - 1];
      assert last.0 !in Keys(d + w') by {
        forall a | 0 <= a < |d + w'| ensures (d + w')[a].0 != last.0 {
          assert (d + w')[a] == (d + w)[a] && last == (d + w)[|d + w| - 1];
        }
      }
      AppendNew(d + w', last.0, last.1);
      assert d + w' + [last] == d + w;
    }
  }

  /** A list-free record whose leaves have distinct flat keys flattens to
      exactly its leaves, in depth-first order, under those keys. Distinct
      paths are not enough: {"a-b": 1, "a": {"b": 2}} joins two paths to the
      one key "a-b", and the later leaf overwrites the earlier. */
  lemma ListFreeRecord(j: Json, sep: string)
    requires ListFree(j) && Distinct(Keyed("", LeafPaths(j), sep))
    ensures FlattenData(j, sep) == Keyed("", LeafPaths(j), sep)
  {
    var w := Keyed("", LeafPaths(j), sep);
    ListFreeFlatten(j, "", sep, []);
    assert [] + w == w;
    SetAllFresh([], w);
  }
}
